/** The two indexes of `IndexedMemoryPool`: free blocks by size class, and by address. */
module SizeIndex {

  /** The largest size class; a larger block is a class of its own. */
  const LARGEST: nat := 1024 * 1024

  /** A free block: offset of its header, and size. */
  type Entry = (nat, nat)

  // ---- size classes ---------------------------------------------------------------------------

  /** `m_size_classes`: `c`, `2c`, `4c`, ... up to LARGEST. */
  function Classes(c: nat): seq<nat>
    requires c > 0
    decreases LARGEST + 1 - c
  {
    if c > LARGEST then [] else [c] + Classes(2 * c)
  }

  /** `std::lower_bound` on the classes, or the size itself beyond the last. */
  function FirstAtLeast(cs: seq<nat>, size: nat): nat {
    if cs == [] then size else if cs[0] >= size then cs[0] else FirstAtLeast(cs[1..], size)
  }

  function SizeClass(size: nat): nat {
    FirstAtLeast(Classes(8), size)
  }

  lemma OneClass(c: nat)
    requires 0 < c <= LARGEST
    ensures Classes(c) == [c] + Classes(2 * c)
  {
  }

  /** The classes are the powers of two from 8 bytes to 1 MiB. */
  lemma ClassTable()
    ensures Classes(8) == [8, 16, 32, 64, 128, 256, 512, 1024, 2048, 4096, 8192, 16384, 32768, 65536, 131072, 262144,
                           524288, 1048576]
  {
    OneClass(1048576);
    OneClass(524288);
    OneClass(262144);
    OneClass(131072);
    OneClass(65536);
    OneClass(32768);
    OneClass(16384);
    OneClass(8192);
    OneClass(4096);
    OneClass(2048);
    OneClass(1024);
    OneClass(512);
    OneClass(256);
    OneClass(128);
    OneClass(64);
    OneClass(32);
    OneClass(16);
    OneClass(8);
  }

  /** A size up to the last class goes to a class, and to the first that is large enough. */
  lemma {:induction false} ClassOf(cs: seq<nat>, size: nat)
    requires cs != [] && size <= cs[|cs| - 1]
    ensures exists i :: 0 <= i < |cs| && FirstAtLeast(cs, size) == cs[i] >= size &&
                        forall j | 0 <= j < i :: cs[j] < size
    decreases |cs|
  {
    if cs[0] < size {
      ClassOf(cs[1..], size);
      var i :| 0 <= i < |cs[1..]| && FirstAtLeast(cs[1..], size) == cs[1..][i] >= size
               && forall j | 0 <= j < i :: cs[1..][j] < size;
      assert cs[i + 1] == cs[1..][i];
      forall j | 0 <= j < i + 1 ensures cs[j] < size {
        if j > 0 {
          assert cs[j] == cs[1..][j - 1];
        }
      }
    }
  }

  lemma {:induction false} ClassBounds(c: nat, size: nat)
    requires c > 0
    ensures var k := FirstAtLeast(Classes(c), size);
            size <= k && (2 * size > c ==> k < 2 * size) && (size > LARGEST ==> k == size)
    decreases LARGEST + 1 - c
  {
    if c <= LARGEST && c < size {
      ClassBounds(2 * c, size);
      assert Classes(c)[1..] == Classes(2 * c);
    }
  }

  lemma {:induction false} ClassMonotone(cs: seq<nat>, size: nat, size': nat)
    requires size <= size'
    ensures FirstAtLeast(cs, size) <= FirstAtLeast(cs, size')
    decreases |cs|
  {
    if cs != [] {
      if cs[0] < size {
        ClassMonotone(cs[1..], size, size');
      } else if cs[0] < size' {
        FirstAtLeastAbove(cs[1..], size');
      }
    }
  }

  lemma {:induction false} FirstAtLeastAbove(cs: seq<nat>, size: nat)
    ensures FirstAtLeast(cs, size) >= size
    decreases |cs|
  {
    if cs != [] && cs[0] < size {
      FirstAtLeastAbove(cs[1..], size);
    }
  }

  // ---- the indexes ----------------------------------------------------------------------------

  datatype Index = Index(bySize: map<nat, set<nat>>, byAddress: set<nat>)

  function Bucket(free: set<Entry>, k: nat): set<nat> {
    set x | x in free && SizeClass(x.1) == k :: x.0
  }

  function Addresses(free: set<Entry>): set<nat> {
    set x | x in free :: x.0
  }

  predicate OneSizeEach(free: set<Entry>) {
    forall x, y | x in free && y in free && x.0 == y.0 :: x == y
  }

  /** The indexes hold exactly the free blocks: each class that occurs has its bucket, which is
      the blocks of that class, and no class without blocks is kept. */
  predicate Agrees(ix: Index, free: set<Entry>) {
    && ix.byAddress == Addresses(free)
    && (forall k <- ix.bySize :: ix.bySize[k] != {} && ix.bySize[k] == Bucket(free, k))
    && (forall x <- free :: SizeClass(x.1) in ix.bySize)
  }

  const EmptyIndex := Index(map[], {})

  /** `add_to_free_index` */
  function Added(ix: Index, a: nat, size: nat): Index {
    var k := SizeClass(size);
    Index(ix.bySize[k := (if k in ix.bySize then ix.bySize[k] else {}) + {a}], ix.byAddress + {a})
  }

  /** `remove_from_free_index` */
  function Removed(ix: Index, a: nat, size: nat): Index {
    var k := SizeClass(size);
    var left := (if k in ix.bySize then ix.bySize[k] else {}) - {a};
    Index(if left == {} then ix.bySize - {k} else ix.bySize[k := left], ix.byAddress - {a})
  }

  lemma AddedAgrees(ix: Index, free: set<Entry>, x: Entry)
    requires Agrees(ix, free)
    ensures Agrees(Added(ix, x.0, x.1), free + {x})
  {
    var ix', free', k := Added(ix, x.0, x.1), free + {x}, SizeClass(x.1);
    assert Addresses(free') == Addresses(free) + {x.0};
    assert k !in ix.bySize ==> Bucket(free, k) == {};
    forall c <- ix'.bySize ensures ix'.bySize[c] != {} && ix'.bySize[c] == Bucket(free', c) {
      assert Bucket(free', c) == if c == k then Bucket(free, c) + {x.0} else Bucket(free, c);
    }
  }

  lemma RemovedAgrees(ix: Index, free: set<Entry>, x: Entry)
    requires Agrees(ix, free) && OneSizeEach(free) && x in free
    ensures Agrees(Removed(ix, x.0, x.1), free - {x})
  {
    var ix', free', k := Removed(ix, x.0, x.1), free - {x}, SizeClass(x.1);
    assert Addresses(free') == Addresses(free) - {x.0};
    assert Bucket(free', k) == Bucket(free, k) - {x.0};
    forall c <- ix'.bySize ensures ix'.bySize[c] != {} && ix'.bySize[c] == Bucket(free', c) {
      if c != k {
        assert Bucket(free', c) == Bucket(free, c);
      }
    }
    forall y <- free' ensures SizeClass(y.1) in ix'.bySize {
      assert y.0 in Bucket(free', SizeClass(y.1));
    }
  }

  // ---- the search -----------------------------------------------------------------------------

  /** The block the search returns: among the free blocks that are large enough, the lowest
      class, and in that class the lowest address. */
  ghost predicate Chosen(free: set<Entry>, n: nat, x: Entry) {
    && x in free && x.1 >= n
    && (forall y <- free | y.1 >= n ::
          SizeClass(x.1) < SizeClass(y.1) || (SizeClass(x.1) == SizeClass(y.1) && x.0 <= y.0))
  }

  predicate SmallestFit(free: set<Entry>, n: nat, m: nat) {
    && m >= n && (exists y <- free :: y.1 == m)
    && (forall y <- free | y.1 >= n :: m <= y.1)
  }

  /** How far from the best fit the chosen block can be: below twice the smallest size that
      fits, and equal to it beyond the largest class. */
  lemma ChosenNearlyBest(free: set<Entry>, n: nat, x: Entry, m: nat)
    requires Chosen(free, n, x) && SmallestFit(free, n, m)
    ensures m <= x.1 && SizeClass(x.1) == SizeClass(m)
    ensures m >= 5 ==> x.1 < 2 * m
    ensures m > LARGEST ==> x.1 == m
  {
    var y :| y in free && y.1 == m;
    ClassMonotone(Classes(8), m, x.1);
    ClassBounds(8, m);
    ClassBounds(8, x.1);
  }

  /** `c` doubles to LARGEST. */
  predicate Doubles(c: nat)
    requires c > 0
    decreases LARGEST + 1 - c
  {
    c == LARGEST || (c < LARGEST && Doubles(2 * c))
  }

  lemma {:induction false} ClassOfClass(cs: seq<nat>, size: nat)
    ensures FirstAtLeast(cs, FirstAtLeast(cs, size)) == FirstAtLeast(cs, size)
    decreases |cs|
  {
    if cs != [] && cs[0] < size {
      ClassOfClass(cs[1..], size);
      FirstAtLeastAbove(cs[1..], size);
    }
  }

  /** The class after a class is its double. */
  lemma {:induction false} NextClass(c: nat, n: nat)
    requires 0 < c <= n < LARGEST && Doubles(c) && FirstAtLeast(Classes(c), n) == n
    ensures FirstAtLeast(Classes(c), n + 1) == 2 * n
    decreases LARGEST + 1 - c
  {
    assert Classes(c)[1..] == Classes(2 * c);
    if c < n {
      NextClass(2 * c, n);
    }
  }

  lemma {:induction false} TopClass(c: nat)
    requires c > 0 && Doubles(c)
    ensures FirstAtLeast(Classes(c), LARGEST) == LARGEST
    decreases LARGEST + 1 - c
  {
    assert Classes(c)[1..] == Classes(2 * c);
    if c < LARGEST {
      TopClass(2 * c);
    }
  }

  lemma EightDoubles()
    ensures Doubles(8)
  {
    assert Doubles(0x100000) && Doubles(0x80000) && Doubles(0x40000) && Doubles(0x20000) && Doubles(0x10000);
    assert Doubles(0x8000) && Doubles(0x4000) && Doubles(0x2000) && Doubles(0x1000) && Doubles(0x800);
    assert Doubles(0x400) && Doubles(0x200) && Doubles(0x100) && Doubles(0x80) && Doubles(0x40) && Doubles(0x20);
  }

  /** Beyond the largest class a class is a size, so the lowest class is the smallest size. */
  lemma BestFitAbove(free: set<Entry>, n: nat, x: Entry)
    requires n >= LARGEST && Chosen(free, n, x)
    ensures SmallestFit(free, n, x.1)
  {
    forall y <- free | y.1 >= n ensures x.1 <= y.1 {
      ClassBounds(8, x.1);
      ClassBounds(8, y.1);
      if y.1 == LARGEST {
        EightDoubles();
        TopClass(8);
      }
    }
  }
}
