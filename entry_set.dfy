/**
 * `BTreeSet<MapEntry>`: the ordered, duplicate-free set in which every source
 * stores its records. It is represented by its ascending iteration order, a
 * strictly increasing sequence under the derived order of `MapEntry`.
 */
module EntrySets {
  import opened Records

  predicate StrictlySorted(s: seq<MapEntry>) {
    forall i, j :: 0 <= i < j < |s| ==> Lt(s[i], s[j])
  }

  type EntrySet = s: seq<MapEntry> | StrictlySorted(s) witness []

  /** Putting a record smaller than every element in front of a set keeps it a set. */
  lemma ConsSorted(y: MapEntry, t: EntrySet)
    requires forall e :: e in t ==> Lt(y, e)
    ensures StrictlySorted([y] + t)
  {
    var r := [y] + t;
    forall i, j | 0 <= i < j < |r| ensures Lt(r[i], r[j]) {
      if i == 0 {
        assert r[j] == t[j - 1];
      } else {
        assert r[i] == t[i - 1] && r[j] == t[j - 1];
      }
    }
  }

  /** A record below the first element of a set is below all of them, so it goes in front. */
  lemma InsertInFront(s: EntrySet, x: MapEntry)
    requires s != [] && Lt(x, s[0])
    ensures x !in s
    ensures StrictlySorted([x] + s)
  {
    assert forall e :: e in s ==> Lt(x, e) by {
      forall e | e in s ensures Lt(x, e) {
        FirstIsLeast(s, e);
        CompareLaws(x, s[0], e);
      }
    }
    CompareLaws(x, x, x);
    ConsSorted(x, s);
  }

  /** A record above the first element of a set is inserted into the rest, behind the first. */
  lemma InsertBehind(s: EntrySet, x: MapEntry, r': EntrySet)
    requires s != [] && Compare(x, s[0]) == Greater
    requires forall e :: e in r' <==> e in s[1..] || e == x
    ensures StrictlySorted([s[0]] + r')
    ensures x in s <==> x in s[1..]
    ensures forall e :: e in [s[0]] + r' <==> e in s || e == x
  {
    GreaterIsAbove(x, s[0]);
    HeadBelowTail(s);
    ConsSorted(s[0], r');
    assert s == [s[0]] + s[1..];
  }

  lemma GreaterIsAbove(x: MapEntry, y: MapEntry)
    requires Compare(x, y) == Greater
    ensures Lt(y, x) && x != y
  {
    CompareLaws(x, y, y);
  }

  /** The first element of a set is below all the others. */
  lemma HeadBelowTail(s: EntrySet)
    requires s != []
    ensures forall e :: e in s[1..] ==> Lt(s[0], e)
  {
    var tail := s[1..];
    forall e | e in tail ensures Lt(s[0], e) {
      var j :| 0 <= j < |tail| && tail[j] == e;
      assert s[j + 1] == e;
    }
  }

  /** `BTreeSet::insert`: adds `x` at its place in the order; a record already present is not added twice. */
  function Insert(s: EntrySet, x: MapEntry): (r: EntrySet)
    ensures forall e :: e in r <==> e in s || e == x
    ensures x in s ==> r == s
    ensures |r| == if x in s then |s| else |s| + 1
  {
    if s == [] then [x]
    else
      match Compare(x, s[0])
      case Less =>
        InsertInFront(s, x);
        [x] + s
      case Equal =>
        CompareEqualIff(x, s[0]);
        s
      case Greater =>
        var r' := Insert(s[1..], x);
        InsertBehind(s, x, r');
        assert s == [s[0]] + s[1..];
        [s[0]] + r'
  }

  /** `FromIterator for BTreeSet`: the set of the given records, whatever their order or repetitions. */
  function Collect(xs: seq<MapEntry>): (r: EntrySet)
    ensures forall e :: e in r <==> e in xs
  {
    if xs == [] then [] else Insert(Collect(xs[..|xs| - 1]), xs[|xs| - 1])
  }

  /** The first element of a set is its least element. */
  lemma FirstIsLeast(s: EntrySet, e: MapEntry)
    requires e in s
    ensures e == s[0] || Lt(s[0], e)
  {
    var j :| 0 <= j < |s| && s[j] == e;
  }

  /**
   * A set has only one representation: two sorted, duplicate-free sequences
   * with the same elements are the same sequence. So equality of stored
   * sets does not depend on the order in which records were inserted.
   */
  lemma {:induction false} SameElementsSameSet(a: EntrySet, b: EntrySet)
    requires forall e :: e in a <==> e in b
    ensures a == b
  {
    assert a != [] ==> a[0] in b;
    assert b != [] ==> b[0] in a;
    if a != [] && b != [] {
      FirstIsLeast(a, b[0]);
      FirstIsLeast(b, a[0]);
      CompareLaws(a[0], b[0], b[0]);
      assert a[0] == b[0];
      var ta: EntrySet, tb: EntrySet := a[1..], b[1..];
      CompareLaws(a[0], a[0], a[0]);
      assert a == [a[0]] + ta && b == [b[0]] + tb;
      forall e ensures e in ta <==> e in tb {
        assert e in ta ==> e != a[0];
        assert e in tb ==> e != b[0];
        assert e in a <==> e == a[0] || e in ta;
        assert e in b <==> e == b[0] || e in tb;
      }
      SameElementsSameSet(ta, tb);
    }
  }
}
