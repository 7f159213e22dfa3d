/** Sorted name lists: the deterministic order in which properties are visited. */
module Names {

  /** Go's string order. */
  predicate Less(a: string, b: string) {
    b != "" && (a == "" || a[0] < b[0] || (a[0] == b[0] && Less(a[1..], b[1..])))
  }

  ghost predicate Sorted(names: seq<string>) {
    forall i, j :: 0 <= i < j < |names| ==> Less(names[i], names[j])
  }

  ghost predicate Lists(names: seq<string>, all: set<string>) {
    Sorted(names) && forall n :: n in names <==> n in all
  }

  lemma {:induction false} LessIrreflexive(a: string)
    ensures !Less(a, a)
  {
    if a != "" {
      LessIrreflexive(a[1..]);
    }
  }

  lemma {:induction false} LessTransitive(a: string, b: string, c: string)
    requires Less(a, b) && Less(b, c)
    ensures Less(a, c)
  {
    if a != "" && a[0] == b[0] == c[0] {
      LessTransitive(a[1..], b[1..], c[1..]);
    }
  }

  lemma {:induction false} LessTotal(a: string, b: string)
    ensures Less(a, b) || a == b || Less(b, a)
  {
    if a != "" && b != "" && a[0] == b[0] {
      LessTotal(a[1..], b[1..]);
      assert a == [a[0]] + a[1..] && b == [b[0]] + b[1..];
    }
  }

  /** The order is that of the first difference, with a prefix first. */
  lemma {:induction false} LessMeans(a: string, b: string)
    ensures Less(a, b) <==>
      exists k :: 0 <= k <= |a| && k < |b| && a[..k] == b[..k] && (k == |a| || a[k] < b[k])
  {
    if b != "" && a != "" && a[0] == b[0] {
      LessMeans(a[1..], b[1..]);
      if Less(a, b) {
        var k :| 0 <= k <= |a[1..]| && k < |b[1..]| && a[1..][..k] == b[1..][..k]
          && (k == |a[1..]| || a[1..][k] < b[1..][k]);
        assert a[..k + 1] == [a[0]] + a[1..][..k] && b[..k + 1] == [b[0]] + b[1..][..k];
        assert k + 1 == |a| || a[k + 1] < b[k + 1];
      }
      if k :| 0 <= k <= |a| && k < |b| && a[..k] == b[..k] && (k == |a| || a[k] < b[k]) {
        assert k > 0;
        assert a[1..][..k - 1] == a[..k][1..] && b[1..][..k - 1] == b[..k][1..];
        assert k - 1 == |a[1..]| || a[1..][k - 1] < b[1..][k - 1];
      }
    } else if b != "" {
      assert a[..0] == b[..0];
      if k :| 0 <= k <= |a| && k < |b| && a[..k] == b[..k] && (k == |a| || a[k] < b[k]) {
        assert k > 0 ==> a[..k][0] == b[..k][0];
      }
    }
  }

  lemma SortedDistinct(names: seq<string>)
    requires Sorted(names)
    ensures forall i, j :: 0 <= i < j < |names| ==> names[i] != names[j]
  {
    forall i, j | 0 <= i < j < |names| ensures names[i] != names[j] {
      LessIrreflexive(names[i]);
    }
  }

  lemma HeadIsLeast(names: seq<string>, n: string)
    requires Sorted(names) && n in names
    ensures n == names[0] || Less(names[0], n)
  {
  }

  /** A sorted list is determined by its elements. */
  lemma {:induction false} SortedIsUnique(a: seq<string>, b: seq<string>, all: set<string>)
    requires Lists(a, all) && Lists(b, all)
    ensures a == b
  {
    assert b == [] || b[0] in b;
    if a != [] {
      assert a[0] in a;
      assert a[0] in b;
      HeadIsLeast(a, b[0]);
      HeadIsLeast(b, a[0]);
      if Less(a[0], b[0]) && Less(b[0], a[0]) {
        LessTransitive(a[0], b[0], a[0]);
        LessIrreflexive(a[0]);
      }
      TailLists(a, all);
      TailLists(b, all);
      SortedIsUnique(a[1..], b[1..], all - {a[0]});
      assert a == [a[0]] + a[1..] && b == [b[0]] + b[1..];
    }
  }

  lemma TailLists(names: seq<string>, all: set<string>)
    requires Lists(names, all) && names != []
    ensures Lists(names[1..], all - {names[0]})
  {
    SortedDistinct(names);
  }

  function Insert(names: seq<string>, n: string): seq<string> {
    if names == [] || Less(n, names[0]) then [n] + names else [names[0]] + Insert(names[1..], n)
  }

  lemma {:induction false} InsertLists(names: seq<string>, n: string, all: set<string>)
    requires Lists(names, all) && n !in all
    ensures Lists(Insert(names, n), all + {n})
  {
    if names == [] {
    } else if Less(n, names[0]) {
      forall k | k in names ensures Less(n, k) {
        HeadIsLeast(names, k);
        if k != names[0] {
          LessTransitive(n, names[0], k);
        }
      }
    } else {
      LessTotal(n, names[0]);
      assert names[0] in names;
      TailLists(names, all);
      InsertLists(names[1..], n, all - {names[0]});
      var rest := Insert(names[1..], n);
      assert all - {names[0]} + {n} == all + {n} - {names[0]};
      forall k | k in rest ensures Less(names[0], k) {
        if k != n {
          HeadIsLeast(names, k);
          LessIrreflexive(names[0]);
        }
      }
    }
  }

  lemma {:induction false} ListExists(all: set<string>)
    ensures exists names :: Lists(names, all)
  {
    if all == {} {
      assert Lists([], all);
    } else {
      var n :| n in all;
      ListExists(all - {n});
      var names :| Lists(names, all - {n});
      InsertLists(names, n, all - {n});
      assert all - {n} + {n} == all;
    }
  }

  /** The sorted list of a set of names. */
  ghost function SortedList(all: set<string>): (names: seq<string>)
    ensures Lists(names, all)
  {
    ListExists(all);
    var names :| Lists(names, all);
    names
  }

  /** Sorting the keys of a map, in whatever order the map hands them out. */
  method SortNames(all: set<string>) returns (names: seq<string>)
    ensures names == SortedList(all)
  {
    names := [];
    var rest := all;
    while rest != {}
      invariant rest <= all
      invariant Lists(names, all - rest)
    {
      var n :| n in rest;
      InsertLists(names, n, all - rest);
      names := Insert(names, n);
      assert all - (rest - {n}) == all - rest + {n};
      rest := rest - {n};
    }
    assert all - {} == all;
    SortedIsUnique(names, SortedList(all), all);
  }

  /** Elements of `a` absent from `b`, in a's order. */
  function Without(a: seq<string>, b: seq<string>): (out: seq<string>)
    ensures forall n :: n in out <==> n in a && n !in b
  {
    if a == [] then []
    else if a[0] in b then Without(a[1..], b)
    else [a[0]] + Without(a[1..], b)
  }

  /** One element more is kept, at the end, unless it is in `b`. */
  lemma {:induction false} WithoutSnoc(a: seq<string>, x: string, b: seq<string>)
    ensures Without(a + [x], b) == Without(a, b) + if x in b then [] else [x]
  {
    if a == [] {
      assert a + [x] == [x] && [x][1..] == [];
    } else {
      assert (a + [x])[1..] == a[1..] + [x];
      WithoutSnoc(a[1..], x, b);
    }
  }

  method SliceDiff(a: seq<string>, b: seq<string>) returns (out: seq<string>)
    ensures out == Without(a, b)
  {
    var bSet := set n | n in b;
    out := [];
    for i := 0 to |a|
      invariant out + Without(a[i..], b) == Without(a, b)
    {
      assert a[i..][1..] == a[i + 1..];
      if a[i] !in bSet {
        out := out + [a[i]];
      }
    }
  }

  lemma {:induction false} WithoutSorted(a: seq<string>, b: seq<string>)
    requires Sorted(a)
    ensures Sorted(Without(a, b))
  {
    if a != [] {
      assert Sorted(a[1..]);
      WithoutSorted(a[1..], b);
      var rest := Without(a[1..], b);
      forall k | k in rest ensures Less(a[0], k) {
        var i :| 0 <= i < |a[1..]| && a[1..][i] == k;
        assert a[i + 1] == k;
      }
    }
  }

  /** A name longer than all of these, so none of them. */
  lemma {:induction false} LongerThanAll(values: seq<string>) returns (s: string)
    ensures |s| > 0 && forall v :: v in values ==> |v| < |s|
  {
    if values == [] {
      return "a";
    }
    var rest := LongerThanAll(values[1..]);
    return rest + values[0];
  }
}
