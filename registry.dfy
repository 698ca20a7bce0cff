/**
 * The capability registry: membership by binary search over the sorted
 * capability lists (`sliceHasValue` over `sort.SearchStrings`), the sort that
 * `Create` applies to them, and the filter the requested-capability setters
 * apply to a caller's list of names.
 */
module Registry {
  import opened Text

  // ------------------------------------------------------ binary search

  /** Every element below `i` is smaller than `v`. */
  ghost predicate AllBelow(s: seq<string>, i: int, v: string)
    requires 0 <= i <= |s|
  {
    forall j :: 0 <= j < i ==> Less(s[j], v)
  }

  /** No element from `i` on is smaller than `v`. */
  ghost predicate NoneFrom(s: seq<string>, i: int, v: string)
    requires 0 <= i <= |s|
  {
    forall j :: i <= j < |s| ==> !Less(s[j], v)
  }

  /**
   * `sort.SearchStrings(s, v)`: the first index whose element is not smaller
   * than `v` (|s| when there is none), found by halving [lo, hi).
   */
  function Search(s: seq<string>, v: string, lo: nat, hi: nat): (i: nat)
    requires Sorted(s) && lo <= hi <= |s|
    requires AllBelow(s, lo, v) && NoneFrom(s, hi, v)
    ensures lo <= i <= hi
    ensures AllBelow(s, i, v) && NoneFrom(s, i, v)
    decreases hi - lo
  {
    if lo == hi then lo
    else
      var mid := lo + (hi - lo) / 2;
      if Less(s[mid], v) then
        BelowSpreads(s, mid, v);
        Search(s, v, mid + 1, hi)
      else
        AboveSpreads(s, mid, v);
        Search(s, v, lo, mid)
  }

  lemma BelowSpreads(s: seq<string>, mid: int, v: string)
    requires Sorted(s) && 0 <= mid < |s| && Less(s[mid], v)
    ensures AllBelow(s, mid + 1, v)
  {
    forall j | 0 <= j < mid ensures Less(s[j], v) {
      if s[j] != s[mid] {
        LessTransitive(s[j], s[mid], v);
      }
    }
  }

  lemma AboveSpreads(s: seq<string>, mid: int, v: string)
    requires Sorted(s) && 0 <= mid < |s| && !Less(s[mid], v)
    ensures NoneFrom(s, mid, v)
  {
    forall j | mid <= j < |s| ensures !Less(s[j], v) {
      NotLessIsGreaterEq(s[mid], v);
      LessEqTransitive(v, s[mid], s[j]);
      LessEqNotGreater(v, s[j]);
    }
  }

  function SearchStrings(s: seq<string>, v: string): (i: nat)
    requires Sorted(s)
    ensures i <= |s| && AllBelow(s, i, v) && NoneFrom(s, i, v)
  {
    Search(s, v, 0, |s|)
  }

  /**
   * `sliceHasValue`: on a sorted list, true exactly when `v` occurs in it.
   * A nil list behaves as the empty one and gives false.
   */
  function SliceHasValue(s: seq<string>, v: string): (r: bool)
    requires Sorted(s)
    ensures r <==> v in s
  {
    var i := SearchStrings(s, v);
    FoundIfPresent(s, v, i);
    i < |s| && s[i] == v
  }

  lemma FoundIfPresent(s: seq<string>, v: string, i: nat)
    requires Sorted(s) && i <= |s| && AllBelow(s, i, v) && NoneFrom(s, i, v)
    ensures v in s ==> i < |s| && s[i] == v
  {
    if v in s {
      var k :| 0 <= k < |s| && s[k] == v;
      LessIrreflexive(v);
      assert i <= k;
      NotLessIsGreaterEq(s[i], v);
      LessEqNotGreater(v, s[i]);
      assert LessEq(s[i], s[k]);
      LessEqAntisymmetric(s[i], v);
    }
  }

  // -------------------------------------------------------------- sorting

  /** Inserting into a sorted list keeps it sorted and adds exactly `x`. */
  function Insert(x: string, s: seq<string>): (r: seq<string>)
    requires Sorted(s)
    ensures Sorted(r) && multiset(r) == multiset(s) + multiset{x}
  {
    if s == [] then [x]
    else if LessEq(x, s[0]) then
      InsertFront(x, s);
      [x] + s
    else
      var rest := Insert(x, s[1..]);
      assert s == [s[0]] + s[1..];
      NotLessIsGreaterEq(x, s[0]);
      HeadBelow(s[0], x, s[1..], rest);
      [s[0]] + rest
  }

  lemma InsertFront(x: string, s: seq<string>)
    requires Sorted(s) && s != [] && LessEq(x, s[0])
    ensures Sorted([x] + s)
  {
    forall j | 0 <= j < |s| ensures LessEq(x, s[j]) {
      LessEqTransitive(x, s[0], s[j]);
    }
  }

  lemma HeadBelow(h: string, x: string, tail: seq<string>, rest: seq<string>)
    requires Sorted([h] + tail) && Sorted(rest) && LessEq(h, x)
    requires multiset(rest) == multiset(tail) + multiset{x}
    ensures Sorted([h] + rest)
  {
    forall j | 0 <= j < |rest| ensures LessEq(h, rest[j]) {
      assert rest[j] in multiset(rest);
      if rest[j] != x {
        assert rest[j] in multiset(tail);
        var k :| 0 <= k < |tail| && tail[k] == rest[j];
        assert ([h] + tail)[0] == h && ([h] + tail)[k + 1] == tail[k];
      }
    }
  }

  /** `sort.Strings`: an ascending permutation of its input. */
  function SortStrings(s: seq<string>): (r: seq<string>)
    ensures Sorted(r) && multiset(r) == multiset(s)
  {
    if s == [] then []
    else
      assert s == [s[0]] + s[1..];
      Insert(s[0], SortStrings(s[1..]))
  }

  /** Sorting neither adds nor loses a name. */
  lemma SortStringsMembers(s: seq<string>, x: string)
    ensures x in SortStrings(s) <==> x in s
  {
    assert x in SortStrings(s) <==> x in multiset(SortStrings(s));
    assert x in s <==> x in multiset(s);
  }

  // --------------------------------------------------- capability filter

  /**
   * The names of `names` that are in `registry` and not in `excluded`, in
   * input order with repetitions kept: what the append loops of the
   * requested-capability setters build.
   */
  function KnownExcept(names: seq<string>, registry: seq<string>, excluded: seq<string>): seq<string>
  {
    if names == [] then []
    else
      var last := names[|names| - 1];
      KnownExcept(names[..|names| - 1], registry, excluded)
        + (if last in registry && last !in excluded then [last] else [])
  }

  /** The names of `names` that are in `registry`. */
  function Known(names: seq<string>, registry: seq<string>): seq<string> {
    KnownExcept(names, registry, [])
  }

  /** One more name at the end of the input extends the result by at most that name. */
  lemma KnownExceptSnoc(names: seq<string>, n: string, registry: seq<string>, excluded: seq<string>)
    ensures KnownExcept(names + [n], registry, excluded)
         == KnownExcept(names, registry, excluded) + (if n in registry && n !in excluded then [n] else [])
  {
    assert (names + [n])[..|names|] == names;
  }

  /** Filtering distributes over concatenation: input order is kept. */
  lemma {:induction false} KnownExceptAppend(a: seq<string>, b: seq<string>, registry: seq<string>, excluded: seq<string>)
    ensures KnownExcept(a + b, registry, excluded)
         == KnownExcept(a, registry, excluded) + KnownExcept(b, registry, excluded)
    decreases |b|
  {
    if b == [] {
      assert a + b == a;
    } else {
      var init, last := b[..|b| - 1], b[|b| - 1];
      assert b == init + [last];
      assert a + b == (a + init) + [last];
      KnownExceptAppend(a, init, registry, excluded);
      KnownExceptSnoc(a + init, last, registry, excluded);
      KnownExceptSnoc(init, last, registry, excluded);
    }
  }

  /**
   * Membership and multiplicity: a name is kept, as often as it occurs,
   * exactly when it is in the registry and not excluded.
   */
  lemma {:induction false} KnownExceptCount(names: seq<string>, registry: seq<string>, excluded: seq<string>, x: string)
    ensures multiset(KnownExcept(names, registry, excluded))[x]
         == if x in registry && x !in excluded then multiset(names)[x] else 0
    decreases |names|
  {
    if names != [] {
      var init, last := names[..|names| - 1], names[|names| - 1];
      assert names == init + [last];
      KnownExceptCount(init, registry, excluded, x);
    }
  }

  lemma KnownExceptMember(names: seq<string>, registry: seq<string>, excluded: seq<string>, x: string)
    ensures x in KnownExcept(names, registry, excluded) <==> x in names && x in registry && x !in excluded
  {
    KnownExceptCount(names, registry, excluded, x);
    assert x in multiset(KnownExcept(names, registry, excluded)) <==> x in KnownExcept(names, registry, excluded);
    assert x in multiset(names) <==> x in names;
  }

  /** Every name of the result is a given name, a registry member and not excluded. */
  lemma KnownInRegistry(names: seq<string>, registry: seq<string>, excluded: seq<string>)
    ensures forall x :: x in KnownExcept(names, registry, excluded) ==> x in names && x in registry && x !in excluded
  {
    forall x | x in KnownExcept(names, registry, excluded) ensures x in names && x in registry && x !in excluded {
      KnownExceptMember(names, registry, excluded, x);
    }
  }
}
