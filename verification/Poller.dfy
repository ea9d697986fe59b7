/** Channels and the epoll poller: the user-space record of what each descriptor is interested
  in, and the kernel's interest set that `epoll_ctl` maintains.
 */
module Poller {

  type Fd = int

  datatype Event = In | Pri | Out

  /** kReadEvent and kWriteEvent. */
  const READ: set<Event> := {In, Pri}
  const WRITE: set<Event> := {Out}

  datatype Index = New | Added | Deleted

  datatype CtlOp = Add | Mod | Del

  /** The kernel's entry for a descriptor. */
  datatype Interest = Absent | Present(mask: set<Event>)

  /** One channel with its entries: `mapped` says that the poller's map holds it, `faults` counts
      the epoll_ctl calls on it that the kernel refused. */
  datatype Slot = Slot(events: set<Event>, index: Index, mapped: bool, kernel: Interest, faults: nat)

  const Unused := Slot({}, New, false, Absent, 0)

  /** epoll_ctl: ADD wants the descriptor absent, MOD and DEL want it present. */
  function Ctl(s: Slot, op: CtlOp): Slot {
    if (op.Add? && s.kernel.Present?) || (!op.Add? && s.kernel.Absent?) then s.(faults := s.faults + 1)
    else s.(kernel := if op.Del? then Absent else Present(s.events))
  }

  /** `updateChannel`, after the events have been set. */
  function Updated(s: Slot): Slot {
    if s.index.Added? then
      if s.events == {} then Ctl(s, Del).(index := Deleted) else Ctl(s, Mod)
    else
      Ctl(s.(mapped := s.mapped || s.index.New?, index := Added), Add)
  }

  /** `removeChannel` */
  function Removed(s: Slot): Slot {
    var t := s.(mapped := false);
    (if s.index.Added? then Ctl(t, Del) else t).(index := New)
  }

  /** One call on a channel. */
  datatype Call =
    | EnableReading | DisableReading | EnableWriting | DisableWriting | DisableAll
    | Remove

  function Wanted(events: set<Event>, c: Call): set<Event> {
    match c
    case EnableReading => events + READ
    case DisableReading => events - READ
    case EnableWriting => events + WRITE
    case DisableWriting => events - WRITE
    case DisableAll => {}
    case Remove => events
  }

  function Called(s: Slot, c: Call): Slot {
    if c.Remove? then Removed(s) else Updated(s.(events := Wanted(s.events, c)))
  }

  // ---- what every sequence of calls keeps -------------------------------------------------------

  /** The kernel is interested exactly in what the channel asks for while it is added; the map
      holds it exactly while it is not new; and no epoll_ctl call was refused. */
  predicate InStep(s: Slot) {
    && s.kernel == (if s.index.Added? then Present(s.events) else Absent)
    && (s.mapped <==> !s.index.New?)
    && s.faults == 0
  }

  /** All channels of a poller, by descriptor. */
  type Table = map<Fd, Slot>

  datatype Step = Step(fd: Fd, call: Call)

  function Run(t: Table, steps: seq<Step>): Table
    requires forall s <- steps :: s.fd in t
    decreases |steps|
  {
    if steps == [] then t else Run(t[steps[0].fd := Called(t[steps[0].fd], steps[0].call)], steps[1..])
  }

  lemma {:induction false} RunKeeps(t: Table, steps: seq<Step>)
    requires (forall s <- steps :: s.fd in t) && (forall fd <- t :: InStep(t[fd]))
    ensures Run(t, steps).Keys == t.Keys && (forall fd <- Run(t, steps) :: InStep(Run(t, steps)[fd]))
    decreases |steps|
  {
    if steps != [] {
      var fd := steps[0].fd;
      assert InStep(Called(t[fd], steps[0].call));
      RunKeeps(t[fd := Called(t[fd], steps[0].call)], steps[1..]);
    }
  }

  /** For every sequence of enable, disable and remove calls on channels with distinct
      descriptors, the kernel's interest set is exactly the channels whose index is kAdded, with
      their masks, the map is exactly those whose index is not kNew, and every ADD found the
      descriptor absent, every MOD and DEL found it present. */
  lemma MirrorsKernel(fds: set<Fd>, steps: seq<Step>)
    requires forall s <- steps :: s.fd in fds
    ensures var t := Run(map fd | fd in fds :: Unused, steps);
            t.Keys == fds && forall fd <- fds :: InStep(t[fd])
  {
    RunKeeps(map fd | fd in fds :: Unused, steps);
  }

  // ---- what the kernel watches, by the calls alone -----------------------------------------------

  /** The call asks for the event, asks not to get it, or says nothing about it. */
  predicate Asks(c: Call, e: Event) {
    if e.Out? then c.EnableWriting? else c.EnableReading?
  }

  predicate Declines(c: Call, e: Event) {
    c.DisableAll? || if e.Out? then c.DisableWriting? else c.DisableReading?
  }

  /** The last call for `fd` that says anything about the event asks for it. */
  predicate Wants(steps: seq<Step>, fd: Fd, e: Event) {
    if steps == [] then false else
      var (last, before) := (steps[|steps| - 1], steps[..|steps| - 1]);
      if last.fd == fd && (Asks(last.call, e) || Declines(last.call, e)) then Asks(last.call, e)
      else Wants(before, fd, e)
  }

  predicate WantsAny(steps: seq<Step>, fd: Fd) {
    Wants(steps, fd, In) || Wants(steps, fd, Pri) || Wants(steps, fd, Out)
  }

  /** The kernel has an entry for `fd`: the last call for it is an update that leaves some event
      wanted, or one that leaves none when the kernel had no entry before. */
  predicate Watched(steps: seq<Step>, fd: Fd) {
    if steps == [] then false else
      var (last, before) := (steps[|steps| - 1], steps[..|steps| - 1]);
      if last.fd != fd then Watched(before, fd)
      else !last.call.Remove? && (WantsAny(steps, fd) || !Watched(before, fd))
  }

  /** The poller's map holds the channel: there was a call for it, and the last is not a removal. */
  predicate Mapped(steps: seq<Step>, fd: Fd) {
    if steps == [] then false else
      var last := steps[|steps| - 1];
      if last.fd == fd then !last.call.Remove? else Mapped(steps[..|steps| - 1], fd)
  }

  lemma {:induction false} RunLast(t: Table, steps: seq<Step>)
    requires (forall s <- steps :: s.fd in t) && steps != []
    ensures var (last, before) := (steps[|steps| - 1], steps[..|steps| - 1]);
            && (forall s <- before :: s.fd in t) && last.fd in Run(t, before)
            && Run(t, steps) == Run(t, before)[last.fd := Called(Run(t, before)[last.fd], last.call)]
    decreases |steps|
  {
    if |steps| > 1 {
      var u := t[steps[0].fd := Called(t[steps[0].fd], steps[0].call)];
      RunLast(u, steps[1..]);
      assert steps[1..][..|steps| - 2] == steps[..|steps| - 1][1..];
    }
  }

  predicate Follows(s: Slot, steps: seq<Step>, fd: Fd) {
    && (In in s.events <==> Wants(steps, fd, In)) && (Pri in s.events <==> Wants(steps, fd, Pri))
    && (Out in s.events <==> Wants(steps, fd, Out)) && (s.kernel.Present? <==> Watched(steps, fd))
    && (s.mapped <==> Mapped(steps, fd))
  }

  lemma StepFollows(s: Slot, steps: seq<Step>, fd: Fd)
    requires steps != [] && steps[|steps| - 1].fd == fd && InStep(s) && Follows(s, steps[..|steps| - 1], fd)
    ensures Follows(Called(s, steps[|steps| - 1].call), steps, fd)
  {
    var c := steps[|steps| - 1].call;
    var w := Wanted(s.events, c);
    assert w == {} <==> In !in w && Pri !in w && Out !in w by {
      forall e <- w ensures e == In || e == Pri || e == Out {
      }
    }
  }

  lemma {:induction false} RunFollows(fds: set<Fd>, steps: seq<Step>, fd: Fd)
    requires (forall s <- steps :: s.fd in fds) && fd in fds
    ensures var t := Run(map fd | fd in fds :: Unused, steps); t.Keys == fds && Follows(t[fd], steps, fd)
    decreases |steps|
  {
    var t := map fd | fd in fds :: Unused;
    if steps != [] {
      var before := steps[..|steps| - 1];
      RunLast(t, steps);
      MirrorsKernel(fds, before);
      RunFollows(fds, before, fd);
      if steps[|steps| - 1].fd == fd {
        StepFollows(Run(t, before)[fd], steps, fd);
      }
    }
  }

  /** For every sequence of calls and every descriptor: map and kernel have an entry exactly if the
      calls say so, and the kernel's mask holds exactly the events that were last asked for. */
  lemma WatchesExactly(fds: set<Fd>, steps: seq<Step>, fd: Fd, e: Event)
    requires (forall s <- steps :: s.fd in fds) && fd in fds
    ensures var t := Run(map fd | fd in fds :: Unused, steps);
            && fd in t && (t[fd].mapped <==> Mapped(steps, fd)) && (t[fd].kernel.Present? <==> Watched(steps, fd))
            && (t[fd].kernel.Present? ==> (e in t[fd].kernel.mask <==> Wants(steps, fd, e)))
  {
    MirrorsKernel(fds, steps);
    RunFollows(fds, steps, fd);
  }

  // ---- the objects ------------------------------------------------------------------------------

  class Channel {
    const fd: Fd
    var events: set<Event>
    var index: Index

    constructor (fd: Fd)
      ensures this.fd == fd && events == {} && index == New
    {
      this.fd := fd;
      events := {};
      index := New;
    }

    predicate IsWriting()
      reads this
    {
      Out in events
    }
  }

  class EPollPoller {
    var channels: map<Fd, Channel>
    var kernel: map<Fd, set<Event>>
    var faults: map<Fd, nat>

    /** The map never leads to another channel than the one with that descriptor. */
    ghost predicate Holds(ch: Channel)
      reads this
    {
      ch.fd in channels ==> channels[ch.fd] == ch
    }

    /** The slot of one channel. */
    ghost function View(ch: Channel): Slot
      reads this, ch
    {
      Slot(ch.events, ch.index, ch.fd in channels,
           if ch.fd in kernel then Present(kernel[ch.fd]) else Absent,
           if ch.fd in faults then faults[ch.fd] else 0)
    }

    constructor ()
      ensures channels == map[] && kernel == map[] && faults == map[]
    {
      channels := map[];
      kernel := map[];
      faults := map[];
    }

    /** The entries of every other descriptor stay. */
    twostate predicate OnlyFor(fd: Fd)
      reads this
    {
      && channels - {fd} == old(channels) - {fd}
      && kernel - {fd} == old(kernel) - {fd}
      && faults - {fd} == old(faults) - {fd}
    }

    method Update(op: CtlOp, ch: Channel)
      modifies this`kernel, this`faults
      ensures View(ch) == Ctl(old(View(ch)), op) && OnlyFor(ch.fd)
    {
      var present := ch.fd in kernel;
      if (op.Add? && present) || (!op.Add? && !present) {
        faults := faults[ch.fd := (if ch.fd in faults then faults[ch.fd] else 0) + 1];
      } else if op.Del? {
        kernel := kernel - {ch.fd};
      } else {
        kernel := kernel[ch.fd := ch.events];
      }
    }

    method UpdateChannel(ch: Channel)
      requires Holds(ch)
      modifies this, ch`index
      ensures Holds(ch) && View(ch) == Updated(old(View(ch))) && OnlyFor(ch.fd)
    {
      if ch.index.New? || ch.index.Deleted? {
        if ch.index.New? {
          channels := channels[ch.fd := ch];
        }
        ch.index := Added;
        Update(Add, ch);
      } else if ch.events == {} {
        Update(Del, ch);
        ch.index := Deleted;
      } else {
        Update(Mod, ch);
      }
    }

    method RemoveChannel(ch: Channel)
      requires Holds(ch)
      modifies this, ch`index
      ensures Holds(ch) && View(ch) == Removed(old(View(ch))) && OnlyFor(ch.fd)
    {
      channels := channels - {ch.fd};
      if ch.index.Added? {
        Update(Del, ch);
      }
      ch.index := New;
    }

    /** Any one of the channel's own operations, which set the mask and call `update`, or
        `remove`. */
    method Call(ch: Channel, c: Call)
      requires Holds(ch)
      modifies this, ch`index, ch`events
      ensures Holds(ch) && View(ch) == Called(old(View(ch)), c) && OnlyFor(ch.fd)
      ensures ch.events == Wanted(old(ch.events), c)
    {
      if c.Remove? {
        RemoveChannel(ch);
      } else {
        ch.events := Wanted(ch.events, c);
        UpdateChannel(ch);
      }
    }
  }
}
