/** List helpers of the machine: filtering, difference, reversal, removal of
    repetitions, first-occurrence lookup, and the order facts that survive them. */
module Slices {

  datatype Option<T> = None | Some(value: T)

  function Elems<T>(s: seq<T>): set<T> {
    set x | x in s
  }

  ghost predicate NoDup<T>(s: seq<T>) {
    forall i, j :: 0 <= i < j < |s| ==> s[i] != s[j]
  }

  /** Position of the first occurrence of `x`, or -1. */
  function IndexOf<T(==)>(s: seq<T>, x: T): (k: int)
    ensures -1 <= k < |s|
    ensures k == -1 <==> x !in s
    ensures k >= 0 ==> s[k] == x
    ensures forall j :: 0 <= j < |s| && s[j] == x ==> k <= j
  {
    if s == [] then -1
    else
      var k := IndexOf(s[..|s| - 1], x);
      if k >= 0 then k else if s[|s| - 1] == x then |s| - 1 else -1
  }

  /** The members of `s` that lie in `keep`, in the order of `s`. */
  function Only<T(==, !new)>(s: seq<T>, keep: set<T>): (r: seq<T>)
    ensures forall x {:trigger x in r} :: x in r <==> x in s && x in keep
    ensures |r| <= |s|
  {
    if s == [] then []
    else
      var r := Only(s[..|s| - 1], keep);
      if s[|s| - 1] in keep then r + [s[|s| - 1]] else r
  }

  /** The members of `s` that are absent from `t`, in the order of `s`. */
  function Diff<T(==, !new)>(s: seq<T>, t: seq<T>): (r: seq<T>)
    ensures forall x {:trigger x in r} :: x in r <==> x in s && x !in t
    ensures |r| <= |s|
  {
    if s == [] then []
    else
      var r := Diff(s[..|s| - 1], t);
      if s[|s| - 1] in t then r else r + [s[|s| - 1]]
  }

  function Reverse<T(!new)>(s: seq<T>): (r: seq<T>)
    ensures |r| == |s| && forall i :: 0 <= i < |s| ==> r[i] == s[|s| - 1 - i]
    ensures forall x {:trigger x in r} :: x in r <==> x in s
  {
    var r := seq(|s|, i requires 0 <= i < |s| => s[|s| - 1 - i]);
    assert forall x :: x in s ==> x in r by {
      forall x | x in s ensures x in r {
        var i :| 0 <= i < |s| && s[i] == x;
        assert r[|s| - 1 - i] == x;
      }
    }
    r
  }

  /** First occurrences only. */
  function Uniq<T(==, !new)>(s: seq<T>): (r: seq<T>)
    ensures forall x {:trigger x in r} :: x in r <==> x in s
    ensures NoDup(r)
  {
    if s == [] then []
    else
      var r := Uniq(s[..|s| - 1]);
      assert s[|s| - 1] in r <==> s[|s| - 1] in s[..|s| - 1];
      if s[|s| - 1] in s[..|s| - 1] then r else r + [s[|s| - 1]]
  }

  /** `s` without the first occurrence of `x`. */
  function Without<T(==)>(s: seq<T>, x: T): (r: seq<T>)
    ensures NoDup(s) ==> NoDup(r) && Elems(r) == Elems(s) - {x}
    ensures x in s ==> |r| == |s| - 1
    ensures x !in s ==> r == s
  {
    var k := IndexOf(s, x);
    if k < 0 then s else
      assert s == s[..k] + [x] + s[k + 1..];
      s[..k] + s[k + 1..]
  }

  // ----- facts about the helpers

  lemma HeadIsMember<T>(s: seq<T>)
    ensures s != [] ==> s[0] in s
  {
  }

  lemma {:induction false} OnlyNoDup<T(!new)>(s: seq<T>, keep: set<T>)
    requires NoDup(s)
    ensures NoDup(Only(s, keep))
  {
    if s != [] {
      OnlyNoDup(s[..|s| - 1], keep);
      assert s[|s| - 1] !in Only(s[..|s| - 1], keep);
    }
  }

  lemma {:induction false} DiffIsOnly<T(!new)>(s: seq<T>, t: seq<T>, keep: set<T>)
    requires forall x :: x in s ==> (x in keep <==> x !in t)
    ensures Diff(s, t) == Only(s, keep)
  {
    if s != [] {
      DiffIsOnly(s[..|s| - 1], t, keep);
    }
  }

  lemma {:induction false} DiffNoDup<T(!new)>(s: seq<T>, t: seq<T>)
    requires NoDup(s)
    ensures NoDup(Diff(s, t))
  {
    if s != [] {
      DiffNoDup(s[..|s| - 1], t);
      assert s[|s| - 1] !in Diff(s[..|s| - 1], t);
    }
  }

  lemma {:induction false} DiffAll<T(!new)>(s: seq<T>, t: seq<T>)
    requires forall x :: x in s ==> x !in t
    ensures Diff(s, t) == s
  {
    if s != [] {
      DiffAll(s[..|s| - 1], t);
      assert s == s[..|s| - 1] + [s[|s| - 1]];
    }
  }

  /** A difference as long as the list means the lists share nothing. */
  lemma {:induction false} DiffSameLength<T(!new)>(s: seq<T>, t: seq<T>)
    requires |Diff(s, t)| >= |s|
    ensures forall x :: x in s ==> x !in t
  {
    if s != [] {
      DiffSameLength(s[..|s| - 1], t);
      assert s == s[..|s| - 1] + [s[|s| - 1]];
    }
  }

  lemma {:induction false} OnlyAll<T(!new)>(s: seq<T>, keep: set<T>)
    requires forall x :: x in s ==> x in keep
    ensures Only(s, keep) == s
  {
    if s != [] {
      OnlyAll(s[..|s| - 1], keep);
      assert s == s[..|s| - 1] + [s[|s| - 1]];
    }
  }

  /** Filtering twice keeps what both filters keep. */
  lemma {:induction false} OnlyTwice<T(!new)>(s: seq<T>, first: set<T>, second: set<T>, both: set<T>)
    requires forall x :: x in s ==> (x in both <==> x in first && x in second)
    ensures Only(Only(s, first), second) == Only(s, both)
  {
    if s != [] {
      var x := s[|s| - 1];
      OnlyTwice(s[..|s| - 1], first, second, both);
      var r := Only(s[..|s| - 1], first);
      if x in first {
        assert (r + [x])[..|r + [x]| - 1] == r;
      }
    }
  }

  /** Filtering drops something exactly when the list gets shorter. */
  lemma {:induction false} OnlySameLength<T(!new)>(s: seq<T>, keep: set<T>)
    requires |Only(s, keep)| == |s|
    ensures forall x :: x in s ==> x in keep
  {
    if s != [] {
      OnlySameLength(s[..|s| - 1], keep);
      assert s == s[..|s| - 1] + [s[|s| - 1]];
    }
  }

  lemma OnlyNone<T(!new)>(s: seq<T>, keep: set<T>)
    requires forall x :: x in s ==> x !in keep
    ensures Only(s, keep) == []
  {
  }

  lemma {:induction false} OnlyAppend<T(!new)>(a: seq<T>, b: seq<T>, keep: set<T>)
    ensures Only(a + b, keep) == Only(a, keep) + Only(b, keep)
  {
    if b == [] {
      assert a + b == a;
    } else {
      OnlyAppend(a, b[..|b| - 1], keep);
      assert (a + b)[..|a + b| - 1] == a + b[..|b| - 1];
    }
  }

  lemma OnceIn<T(!new)>(s: seq<T>, k: nat)
    requires NoDup(s) && k < |s|
    ensures forall y :: y in s[..k] ==> y in s && y != s[k]
    ensures forall y :: y in s[k + 1..] ==> y in s && y != s[k]
  {
  }

  lemma OnlySplit<T(!new)>(s: seq<T>, k: nat, keep: set<T>)
    requires k < |s| && s[k] !in keep
    ensures Only(s, keep) == Only(s[..k], keep) + Only(s[k + 1..], keep)
  {
    hide Only;
    OnlyNone([s[k]], keep);
    OnlyAppend(s[..k], [s[k]], keep);
    OnlyAppend(s[..k] + [s[k]], s[k + 1..], keep);
    assert s == s[..k] + [s[k]] + s[k + 1..];
  }

  /** Removing one member of a list without repetitions is a difference. */
  lemma WithoutIsDiff<T(!new)>(s: seq<T>, x: T, keep: set<T>)
    requires NoDup(s) && forall y :: y in s ==> (y in keep <==> y != x)
    ensures Without(s, x) == Only(s, keep)
  {
    hide Only;
    var k := IndexOf(s, x);
    if k < 0 {
      OnlyAll(s, keep);
    } else {
      assert Without(s, x) == s[..k] + s[k + 1..];
      OnceIn(s, k);
      hide NoDup, Without, IndexOf;
      OnlyAll(s[..k], keep);
      OnlyAll(s[k + 1..], keep);
      OnlySplit(s, k, keep);
    }
  }

  lemma {:induction false} UniqNoDup<T(!new)>(s: seq<T>)
    requires NoDup(s)
    ensures Uniq(s) == s
  {
    if s != [] {
      UniqNoDup(s[..|s| - 1]);
      assert s == s[..|s| - 1] + [s[|s| - 1]];
    }
  }

  lemma ReverseNoDup<T(!new)>(s: seq<T>)
    requires NoDup(s)
    ensures NoDup(Reverse(s))
  {
  }

  /** A list without repetitions is as long as its set of members. */
  lemma {:induction false} NoDupCard<T>(s: seq<T>)
    requires NoDup(s)
    ensures |Elems(s)| == |s|
  {
    if s == [] {
      assert Elems(s) == {};
    } else {
      var init, x := s[..|s| - 1], s[|s| - 1];
      NoDupCard(init);
      assert s == init + [x];
      assert x !in Elems(init);
      assert Elems(s) == Elems(init) + {x};
    }
  }

  lemma CardWithin<T>(a: set<T>, b: set<T>)
    requires a <= b
    ensures |a| <= |b|
    ensures |a| == |b| ==> a == b
  {
    assert b == a + (b - a);
    assert |b| == |a| + |b - a|;
  }

  // ----- order

  /** `x` comes before `y`, each taken where it occurs first. */
  predicate Leads<T(==)>(s: seq<T>, x: T, y: T) {
    x in s && y in s && IndexOf(s, x) < IndexOf(s, y)
  }

  lemma {:induction false} UniqLeads<T(!new)>(s: seq<T>, x: T, y: T)
    ensures Leads(Uniq(s), x, y) <==> Leads(s, x, y)
  {
    if s != [] {
      var init, last := s[..|s| - 1], s[|s| - 1];
      UniqLeads(init, x, y);
      assert s == init + [last];
      var u := Uniq(init);
      assert (u + [last])[..|u + [last]| - 1] == u;
    }
  }

  lemma {:induction false} OnlyLeads<T(!new)>(s: seq<T>, keep: set<T>, x: T, y: T)
    requires x in keep && y in keep
    ensures Leads(Only(s, keep), x, y) <==> Leads(s, x, y)
  {
    if s != [] {
      var init, last := s[..|s| - 1], s[|s| - 1];
      OnlyLeads(init, keep, x, y);
      assert s == init + [last];
      var r := Only(init, keep);
      assert (r + [last])[..|r + [last]| - 1] == r;
    }
  }

  lemma {:induction false} IndexInAppend<T>(s: seq<T>, t: seq<T>, x: T)
    ensures x in s ==> IndexOf(s + t, x) == IndexOf(s, x)
    ensures x !in s && x in t ==> IndexOf(s + t, x) == |s| + IndexOf(t, x)
  {
    if t == [] {
      assert s + t == s;
    } else {
      IndexInAppend(s, t[..|t| - 1], x);
      assert (s + t)[..|s + t| - 1] == s + t[..|t| - 1];
      assert t == t[..|t| - 1] + [t[|t| - 1]];
    }
  }

  /** What comes first in a list stays first when something is appended to it. */
  lemma AppendLeads<T>(s: seq<T>, t: seq<T>, x: T, y: T)
    requires x in s
    ensures Leads(s + t, x, y) <==> Leads(s, x, y) || (y !in s && y in t)
  {
    IndexInAppend(s, t, x);
    IndexInAppend(s, t, y);
  }

  lemma ReverseLeads<T(!new)>(s: seq<T>, x: T, y: T)
    requires NoDup(s)
    ensures Leads(Reverse(s), x, y) <==> Leads(s, y, x)
  {
    ReverseNoDup(s);
    var r := Reverse(s);
    if x in s && y in s {
      assert r[|s| - 1 - IndexOf(s, x)] == x && r[|s| - 1 - IndexOf(s, y)] == y;
    }
  }

  // ----- counting

  function Count<T(==)>(s: seq<T>, x: T): nat {
    if s == [] then 0 else Count(s[..|s| - 1], x) + if s[|s| - 1] == x then 1 else 0
  }

  lemma {:induction false} CountAppend<T>(s: seq<T>, t: seq<T>, x: T)
    ensures Count(s + t, x) == Count(s, x) + Count(t, x)
  {
    if t == [] {
      assert s + t == s;
    } else {
      CountAppend(s, t[..|t| - 1], x);
      assert (s + t)[..|s + t| - 1] == s + t[..|t| - 1];
    }
  }

  lemma {:induction false} CountMember<T>(s: seq<T>, x: T)
    ensures Count(s, x) > 0 <==> x in s
  {
    if s != [] {
      CountMember(s[..|s| - 1], x);
      assert s == s[..|s| - 1] + [s[|s| - 1]];
    }
  }

  lemma {:induction false} NoDupCount<T>(s: seq<T>, x: T)
    requires NoDup(s)
    ensures Count(s, x) <= 1
  {
    if s != [] {
      var init, last := s[..|s| - 1], s[|s| - 1];
      NoDupCount(init, x);
      CountMember(init, x);
    }
  }

  /** A member that a list with repetitions holds more than once. */
  lemma {:induction false} Repeated<T>(s: seq<T>) returns (x: T)
    requires !NoDup(s)
    ensures Count(s, x) >= 2
  {
    var init, last := s[..|s| - 1], s[|s| - 1];
    if NoDup(init) {
      x := last;
      assert s == init + [last];
      assert last in init;
      CountMember(init, last);
    } else {
      x := Repeated(init);
    }
  }

  lemma CountSplit<T>(s: seq<T>, k: nat, y: T)
    requires k < |s|
    ensures Count(s, y) == Count(s[..k] + s[k + 1..], y) + if s[k] == y then 1 else 0
  {
    assert Count([s[k]], y) == if s[k] == y then 1 else 0 by {
      assert [s[k]][..0] == [];
    }
    CountAppend(s[..k] + [s[k]], s[k + 1..], y);
    CountAppend(s[..k], [s[k]], y);
    CountAppend(s[..k], s[k + 1..], y);
    assert s == s[..k] + [s[k]] + s[k + 1..];
  }

  lemma CountWithout<T>(s: seq<T>, x: T, y: T)
    ensures Count(Without(s, x), y) == Count(s, y) - if y == x && x in s then 1 else 0
  {
    hide Count;
    var k := IndexOf(s, x);
    if k >= 0 {
      CountSplit(s, k, y);
    }
  }
}
