/**
 The order of names.  The database compares names only through `strcmp`
 (database/db.c:97, 123, 134, 194, 205), so the models of the tree use integers for names.
 This module shows that nothing is lost: on the names of any run, numbering them by how
 many names come before gives integers in the same order, with 0 for the empty name.
 */
module Names {

  /** `strcmp` on strings without NUL: the first difference decides, and a proper prefix is smaller. */
  function Compare(s: string, t: string): int {
    if s == [] then (if t == [] then 0 else -1)
    else if t == [] then 1
    else if s[0] != t[0] then s[0] as int - t[0] as int
    else Compare(s[1..], t[1..])
  }

  predicate Less(s: string, t: string) { Compare(s, t) < 0 }

  lemma {:induction false} Total(s: string, t: string)
    ensures Compare(s, t) == -Compare(t, s)
    ensures Compare(s, t) == 0 <==> s == t
  {
    if s != [] && t != [] {
      assert s == [s[0]] + s[1..] && t == [t[0]] + t[1..];
      Total(s[1..], t[1..]);
    }
  }

  lemma {:induction false} Transitive(s: string, t: string, u: string)
    requires Less(s, t) && Less(t, u)
    ensures Less(s, u)
  {
    if s != [] && t != [] && u != [] && s[0] == t[0] == u[0] {
      Transitive(s[1..], t[1..], u[1..]);
    }
  }

  /** Names are in the order of a dictionary: where they first differ, the end or the smaller character comes first. */
  lemma {:induction false} FirstDifference(s: string, t: string, i: nat)
    requires i <= |s| && i <= |t| && s[..i] == t[..i] && (i == |s| || i == |t| || s[i] != t[i])
    ensures Less(s, t) <==> i < |t| && (i == |s| || s[i] < t[i])
  {
    if i > 0 {
      assert s[..i][0] == t[..i][0] && s[1..][..i - 1] == s[..i][1..] && t[1..][..i - 1] == t[..i][1..];
      FirstDifference(s[1..], t[1..], i - 1);
    }
  }

  /** The names of `names` that come before `s`. */
  ghost function Below(names: set<string>, s: string): set<string> {
    set t | t in names && Less(t, s)
  }

  ghost function Rank(names: set<string>, s: string): nat {
    |Below(names, s)|
  }

  lemma RankGrows(names: set<string>, s: string, t: string)
    requires s in names && Less(s, t)
    ensures Rank(names, s) < Rank(names, t)
  {
    forall u | u in Below(names, s) ensures u in Below(names, t) {
      Transitive(u, s, t);
    }
    Total(s, s);
    assert Below(names, s) + {s} <= Below(names, t);
    CardinalityMonotone(Below(names, s) + {s}, Below(names, t));
  }

  lemma {:induction false} CardinalityMonotone<T>(a: set<T>, b: set<T>)
    requires a <= b
    ensures |a| <= |b|
  {
    assert b == a + (b - a);
  }

  /** Ranks order names as `strcmp` does, tell them apart, and are 0 for the empty name alone. */
  lemma RanksAreFaithful(names: set<string>, s: string, t: string)
    requires "" in names && s in names && t in names
    ensures Rank(names, s) < Rank(names, t) <==> Compare(s, t) < 0
    ensures Rank(names, s) == Rank(names, t) <==> s == t
    ensures Rank(names, s) == 0 <==> s == ""
  {
    Total(s, t);
    if Less(s, t) { RankGrows(names, s, t); }
    if Less(t, s) { RankGrows(names, t, s); }
    if s == "" {
      assert Below(names, s) == {};
    } else {
      RankGrows(names, "", s);
    }
  }
}
