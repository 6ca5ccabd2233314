/**
 `strtok` of stringsperf/strings/strings.c: a static cursor into a buffer that is
 destroyed as it is read.  A whole sequence of calls, however long, hands out the maximal
 delimiter-free runs of the original text in order and then null for ever, and the only
 bytes it changes are the delimiters directly behind the tokens handed out.
 */
module Tokenizer {

  // ----- NUL-terminated strings -----

  ghost predicate Terminated(s: seq<char>, p: int) {
    0 <= p && exists k :: p <= k < |s| && s[k] == '\0'
  }

  /** Where the string that starts at `p` ends. */
  ghost function End(s: seq<char>, p: nat): (e: nat)
    requires Terminated(s, p)
    ensures p <= e < |s| && s[e] == '\0'
    ensures forall k :: p <= k < e ==> s[k] != '\0'
    decreases |s| - p
  {
    if s[p] == '\0' then p else End(s, p + 1)
  }

  lemma EndUnique(s: seq<char>, p: nat, e: nat)
    requires p <= e < |s| && s[e] == '\0' && forall k :: p <= k < e ==> s[k] != '\0'
    ensures Terminated(s, p) && End(s, p) == e
  {
  }

  /** The characters of a set given as a C string. */
  ghost function Chars(set_: seq<char>): set<char>
    requires Terminated(set_, 0)
  {
    set k | 0 <= k < End(set_, 0) :: set_[k]
  }

  // ----- runs -----

  /** The first place from `p` on, up to `e`, whose membership in `d` is `stop`. */
  ghost function Skip(s: seq<char>, d: set<char>, p: nat, e: nat, stop: bool): (q: nat)
    requires p <= e <= |s|
    ensures p <= q <= e
    ensures q < e ==> (s[q] in d) == stop
    decreases e - p
  {
    if p == e || (s[p] in d) == stop then p else Skip(s, d, p + 1, e, stop)
  }

  lemma {:induction false} SkipPasses(s: seq<char>, d: set<char>, p: nat, e: nat, stop: bool)
    requires p <= e <= |s|
    ensures forall k :: p <= k < Skip(s, d, p, e, stop) ==> (s[k] in d) != stop
    decreases e - p
  {
    if p < e && (s[p] in d) != stop {
      SkipPasses(s, d, p + 1, e, stop);
    }
  }

  lemma {:induction false} SkipUnique(s: seq<char>, d: set<char>, p: nat, e: nat, stop: bool, q: nat)
    requires p <= q <= e <= |s|
    requires forall k :: p <= k < q ==> (s[k] in d) != stop
    requires q < e ==> (s[q] in d) == stop
    ensures Skip(s, d, p, e, stop) == q
    decreases e - p
  {
    if p < q {
      SkipUnique(s, d, p + 1, e, stop, q);
    }
  }

  datatype Span = Span(start: nat, stop: nat)

  /** A maximal non-empty stretch of s[p..e] without delimiters. */
  ghost predicate IsRun(s: seq<char>, d: set<char>, p: nat, e: nat, r: Span)
    requires p <= e <= |s|
  {
    && p <= r.start < r.stop <= e
    && (forall k :: r.start <= k < r.stop ==> s[k] !in d)
    && (r.start == p || s[r.start - 1] in d)
    && (r.stop == e || s[r.stop] in d)
  }

  /** The runs of s[p..e] from left to right. */
  ghost function Runs(s: seq<char>, d: set<char>, p: nat, e: nat): (rs: seq<Span>)
    requires p <= e <= |s|
    decreases e - p
  {
    var a := Skip(s, d, p, e, false);
    if a == e then [] else
      var b := Skip(s, d, a, e, true);
      var rest := if b == e then [] else Runs(s, d, b + 1, e);
      [Span(a, b)] + rest
  }

  ghost predicate Ordered(rs: seq<Span>) {
    forall i, j :: 0 <= i < j < |rs| ==> rs[i].stop < rs[j].start
  }

  /** `Runs` lists all the runs and nothing else, in order. */
  lemma {:induction false} RunsExact(s: seq<char>, d: set<char>, p: nat, e: nat)
    requires p <= e <= |s|
    ensures Ordered(Runs(s, d, p, e))
    ensures forall r :: r in Runs(s, d, p, e) <==> IsRun(s, d, p, e, r)
    decreases e - p
  {
    var a := Skip(s, d, p, e, false);
    SkipPasses(s, d, p, e, false);
    if a == e {
      forall r ensures !IsRun(s, d, p, e, r) {
        assert p <= r.start < r.stop <= e ==> s[r.start] in d;
      }
    } else {
      var b := Skip(s, d, a, e, true);
      SkipPasses(s, d, a, e, true);
      if b == e {
        forall r | IsRun(s, d, p, e, r) ensures r == Span(a, b) {
          FirstRun(s, d, p, e, a, b, r);
        }
      } else {
        var rest := Runs(s, d, b + 1, e);
        RunsExact(s, d, b + 1, e);
        forall i | 0 <= i < |rest| ensures b < rest[i].start {
          assert rest[i] in rest;
        }
        OrderedCons(Span(a, b), rest);
        RunsCons(s, d, p, e, a, b);
        forall r ensures r in Runs(s, d, p, e) <==> IsRun(s, d, p, e, r) {
          OneMoreRun(s, d, p, e, a, b, r);
          assert r in [Span(a, b)] + rest <==> r == Span(a, b) || r in rest;
        }
      }
    }
  }

  /** A run that starts no later than b starts at a and stops at b. */
  lemma FirstRun(s: seq<char>, d: set<char>, p: nat, e: nat, a: nat, b: nat, r: Span)
    requires p <= a < b <= e <= |s| && (forall k :: p <= k < a ==> s[k] in d)
    requires (forall k :: a <= k < b ==> s[k] !in d) && (b < e ==> s[b] in d)
    requires IsRun(s, d, p, e, r) && r.start <= b
    ensures r == Span(a, b)
  {
    assert s[r.start] !in d;
  }

  lemma OneMoreRun(s: seq<char>, d: set<char>, p: nat, e: nat, a: nat, b: nat, r: Span)
    requires p <= a < b < e <= |s| && (forall k :: p <= k < a ==> s[k] in d)
    requires (forall k :: a <= k < b ==> s[k] !in d) && s[b] in d
    ensures IsRun(s, d, p, e, r) <==> r == Span(a, b) || IsRun(s, d, b + 1, e, r)
  {
    if IsRun(s, d, p, e, r) && r.start <= b {
      FirstRun(s, d, p, e, a, b, r);
    }
  }

  lemma OrderedCons(r: Span, rs: seq<Span>)
    requires Ordered(rs) && (forall i :: 0 <= i < |rs| ==> r.stop < rs[i].start)
    ensures Ordered([r] + rs)
  {
  }

  /** The runs from `p` on depend only on the text from `p` on. */
  lemma {:induction false} SkipFrame(s: seq<char>, s': seq<char>, d: set<char>, p: nat, e: nat, stop: bool)
    requires p <= e <= |s| == |s'| && forall k :: p <= k < e ==> s[k] == s'[k]
    ensures Skip(s, d, p, e, stop) == Skip(s', d, p, e, stop)
  {
    SkipPasses(s, d, p, e, stop);
    SkipUnique(s', d, p, e, stop, Skip(s, d, p, e, stop));
  }

  lemma {:induction false} RunsFrame(s: seq<char>, s': seq<char>, d: set<char>, p: nat, e: nat)
    requires p <= e <= |s| == |s'| && forall k :: p <= k < e ==> s[k] == s'[k]
    ensures Runs(s, d, p, e) == Runs(s', d, p, e)
    decreases e - p
  {
    SkipFrame(s, s', d, p, e, false);
    var a := Skip(s, d, p, e, false);
    if a < e {
      SkipFrame(s, s', d, a, e, true);
      var b := Skip(s, d, a, e, true);
      if b < e {
        RunsFrame(s, s', d, b + 1, e);
      }
      SameCons(s, s', d, p, e, a, b);
    }
  }

  lemma SameCons(s: seq<char>, s': seq<char>, d: set<char>, p: nat, e: nat, a: nat, b: nat)
    requires p <= e <= |s| == |s'| && a == Skip(s, d, p, e, false) == Skip(s', d, p, e, false) < e
    requires b == Skip(s, d, a, e, true) == Skip(s', d, a, e, true)
    requires RunsBehind(s, d, b, e) == RunsBehind(s', d, b, e)
    ensures Runs(s, d, p, e) == Runs(s', d, p, e)
  {
    RunsCons(s, d, p, e, a, b);
    RunsCons(s', d, p, e, a, b);
  }

  ghost function RunsBehind(s: seq<char>, d: set<char>, b: nat, e: nat): seq<Span>
    requires b <= e <= |s|
  {
    if b == e then [] else Runs(s, d, b + 1, e)
  }

  lemma RunsCons(s: seq<char>, d: set<char>, p: nat, e: nat, a: nat, b: nat)
    requires p <= e <= |s| && a == Skip(s, d, p, e, false) < e && b == Skip(s, d, a, e, true)
    ensures Runs(s, d, p, e) == [Span(a, b)] + RunsBehind(s, d, b, e)
  {
  }

  // ----- the spans that strtok measures -----

  /** strspn (strings.c:54-74). */
  method Strspn(s: array<char>, p: nat, accept: seq<char>) returns (i: nat)
    requires Terminated(s[..], p) && Terminated(accept, 0)
    ensures p + i == Skip(s[..], Chars(accept), p, End(s[..], p), false)
  {
    ghost var e, d := End(s[..], p), Chars(accept);
    i := 0;
    while s[p + i] != '\0'
      invariant p + i <= e
      invariant forall k :: p <= k < p + i ==> s[k] in d
      decreases e - i
    {
      var j := Position(s[p + i], accept);
      if accept[j] == '\0' { break; }
      i := i + 1;
    }
    SkipUnique(s[..], d, p, e, false, p + i);
  }

  /** strcspn (strings.c:87-107). */
  method Strcspn(s: array<char>, p: nat, reject: seq<char>) returns (i: nat)
    requires Terminated(s[..], p) && Terminated(reject, 0)
    ensures p + i == Skip(s[..], Chars(reject), p, End(s[..], p), true)
  {
    ghost var e, d := End(s[..], p), Chars(reject);
    i := 0;
    while s[p + i] != '\0'
      invariant p + i <= e
      invariant forall k :: p <= k < p + i ==> s[k] !in d
      decreases e - i
    {
      var j := Position(s[p + i], reject);
      if reject[j] != '\0' { break; }
      i := i + 1;
    }
    SkipUnique(s[..], d, p, e, true, p + i);
  }

  /** The inner loop of both (strings.c:61-65, 94-98): the first occurrence of `c`, or the terminator. */
  method Position(c: char, chars: seq<char>) returns (j: nat)
    requires Terminated(chars, 0) && c != '\0'
    ensures j <= End(chars, 0) && (chars[j] == '\0' || chars[j] == c)
    ensures chars[j] != '\0' <==> c in Chars(chars)
  {
    ghost var e := End(chars, 0);
    j := 0;
    while chars[j] != '\0'
      invariant j <= e
      invariant forall k :: 0 <= k < j ==> chars[k] != c
      decreases e - j
    {
      if chars[j] == c { break; }
      j := j + 1;
    }
  }

  /** Where the next token starts and stops (strings.c:200-201). */
  method Measure(buf: array<char>, p: nat, delim: seq<char>) returns (start: nat, stop: nat)
    requires Terminated(buf[..], p) && Terminated(delim, 0)
    ensures start == Skip(buf[..], Chars(delim), p, End(buf[..], p), false)
    ensures stop == Skip(buf[..], Chars(delim), start, End(buf[..], p), true)
  {
    var skipped := Strspn(buf, p, delim);
    start := p + skipped;
    EndUnique(buf[..], start, End(buf[..], p));
    var length := Strcspn(buf, start, delim);
    stop := start + length;
  }

  // ----- strtok -----

  datatype Ptr = Null | At(buf: array<char>, pos: nat)

  /** The bytes after a null has been written behind each of the runs `rs`. */
  ghost function Stamped(s: seq<char>, rs: seq<Span>): (t: seq<char>)
    requires Inside(rs, s)
    ensures |t| == |s|
  {
    if rs == [] then s else Stamped(s, rs[..|rs| - 1])[rs[|rs| - 1].stop := '\0']
  }

  /** The byte behind each of the runs is null, and no other byte has changed. */
  lemma {:induction false} StampedOnly(s: seq<char>, rs: seq<Span>)
    requires Inside(rs, s)
    ensures forall i :: 0 <= i < |rs| ==> Stamped(s, rs)[rs[i].stop] == '\0'
    ensures forall k :: 0 <= k < |s| && Stamped(s, rs)[k] != s[k] ==> exists i :: 0 <= i < |rs| && rs[i].stop == k
    decreases |rs|
  {
    if rs != [] {
      var init := rs[..|rs| - 1];
      StampedOnly(s, init);
      forall k | 0 <= k < |s| && Stamped(s, rs)[k] != s[k] ensures exists i :: 0 <= i < |rs| && rs[i].stop == k {
        if k == rs[|rs| - 1].stop {
        } else {
          var i :| 0 <= i < |init| && init[i].stop == k;
          assert rs[i].stop == k;
        }
      }
      forall i | 0 <= i < |rs| ensures Stamped(s, rs)[rs[i].stop] == '\0' {
        if i < |init| {
          assert init[i] == rs[i];
        }
      }
    }
  }

  function Offset(q: Ptr): (o: int)
    ensures q.Null? <==> o < 0
  {
    if q.At? then q.pos else -1
  }

  /** One call on the text at `p`: the bytes `s` become `t`; negative offsets stand for null. */
  ghost predicate Advanced(s: seq<char>, d: set<char>, p: nat, t: seq<char>, token: int, cursor: int)
    requires Terminated(s, p)
  {
    var e := End(s, p);
    var rs := Runs(s, d, p, e);
    if rs == [] then token == -1 && cursor == e && t == s
    else
      var r := rs[0];
      && token == r.start && r.start < r.stop <= e
      && cursor == (if r.stop < e then r.stop + 1 else -1)
      && t == s[r.stop := '\0']
  }

  lemma NothingLeft(s: seq<char>, d: set<char>, p: nat, start: nat)
    requires Terminated(s, p) && start == Skip(s, d, p, End(s, p), false) == Skip(s, d, start, End(s, p), true)
    ensures Advanced(s, d, p, s, -1, start)
  {
  }

  lemma TokenCut(s: seq<char>, d: set<char>, p: nat, start: nat, stop: nat)
    requires Terminated(s, p) && start == Skip(s, d, p, End(s, p), false)
    requires start < stop == Skip(s, d, start, End(s, p), true)
    ensures Advanced(s, d, p, s[stop := '\0'], start, if s[stop] != '\0' then stop + 1 else -1)
  {
  }

  class Strtok {
    var rem: Ptr

    constructor ()
      ensures rem == Null
    {
      rem := Null;
    }

    /** strtok (strings.c:188-217): one call. */
    method Next(str: Ptr, delim: seq<char>) returns (token: Ptr)
      requires Terminated(delim, 0)
      requires str.At? ==> Terminated(str.buf[..], str.pos)
      requires str.Null? && rem.At? ==> Terminated(rem.buf[..], rem.pos)
      modifies this, if str.At? then {str.buf} else if rem.At? then {rem.buf} else {}
      ensures str.Null? && old(rem).Null? ==> token == Null && rem == Null
      ensures str.At? || old(rem).At? ==>
        var from := if str.At? then str else old(rem);
        && (token.At? ==> token.buf == from.buf) && (rem.At? ==> rem.buf == from.buf)
        && Advanced(old(from.buf[..]), Chars(delim), from.pos, from.buf[..], Offset(token), Offset(rem))
    {
      if str.At? {
        rem := str;
      } else if rem.Null? {
        return Null;
      }
      var buf, p := rem.buf, rem.pos;
      ghost var s := buf[..];
      var start, stop := Measure(buf, p, delim);
      rem := At(buf, stop);
      if stop == start {
        NothingLeft(s, Chars(delim), p, start);
        return Null;
      }
      TokenCut(s, Chars(delim), p, start, stop);
      if buf[stop] != '\0' {
        buf[stop] := '\0';
        rem := At(buf, stop + 1);
      } else {
        rem := Null;
      }
      assert buf[..] == s[stop := '\0'];
      return At(buf, start);
    }

    /** The call number n of a session, on `buf` from the start or from where the cursor stands. */
    method Call(str: Ptr, buf: array<char>, delim: seq<char>, ghost s: seq<char>, ghost e: nat, ghost rs: seq<Span>,
                ghost n: nat)
      returns (token: Ptr)
      requires Terminated(delim, 0)
      requires (str.At? ==> str.buf == buf) && (str.Null? && rem.At? ==> rem.buf == buf)
      requires Standing(buf[..], s, Chars(delim), e, rs, n, Offset(if str.At? then str else rem))
      modifies this, buf
      ensures rem.At? ==> rem.buf == buf
      ensures Standing(buf[..], s, Chars(delim), e, rs, n + 1, Offset(rem))
      ensures token == if n < |rs| then At(buf, rs[n].start) else Null
    {
      ghost var d, now, at := Chars(delim), buf[..], Offset(if str.At? then str else rem);
      if at >= 0 {
        AheadIsText(now, s, d, e, Rest(rs, n), at);
      }
      token := Next(str, delim);
      StandingAdvances(now, s, d, e, rs, n, at, buf[..], Offset(token), Offset(rem));
    }

    /**
     `strtok(s, d)` followed by n - 1 calls of `strtok(NULL, d)`, for any n: the runs of the
     text one after another, then null.  Each token handed out reads as its run.
     */
    method Session(buf: array<char>, p: nat, delim: seq<char>, n: nat) returns (tokens: seq<Ptr>)
      requires Terminated(buf[..], p) && Terminated(delim, 0)
      modifies this, buf
      ensures |tokens| == n
      ensures
        var s := old(buf[..]);
        var rs := Runs(s, Chars(delim), p, End(s, p));
        && HandedOut(tokens, buf, rs, 0)
        && Inside(rs, s) && buf[..] == Stamped(s, First(rs, n))
        && TokensRead(buf[..], First(rs, n), s)
    {
      ghost var s, d := buf[..], Chars(delim);
      StandingStarts(s, d, p);
      AllRead(s, d, p, End(s, p), n);
      tokens := Calls(At(buf, p), buf, delim, s, End(s, p), Runs(s, d, p, End(s, p)), 0, n);
    }

    /** The calls number k to n - 1, as a client makes them one after another. */
    method Calls(str: Ptr, buf: array<char>, delim: seq<char>, ghost s: seq<char>, ghost e: nat, ghost rs: seq<Span>,
                 k: nat, n: nat) returns (tokens: seq<Ptr>)
      requires Terminated(delim, 0) && k <= n
      requires (str.At? ==> str.buf == buf) && (str.Null? && rem.At? ==> rem.buf == buf)
      requires Standing(buf[..], s, Chars(delim), e, rs, k, Offset(if str.At? then str else rem))
      modifies this, buf
      ensures HandedOut(tokens, buf, rs, k) && |tokens| == n - k
      ensures buf[..] == Stamped(s, First(rs, n))
      decreases n - k
    {
      if k == n {
        return [];
      }
      var token := Call(str, buf, delim, s, e, rs, k);
      var others := Calls(Null, buf, delim, s, e, rs, k + 1, n);
      HandOut(token, others, buf, rs, k);
      return [token] + others;
    }
  }

  /** The runs from number k on in order, then null. */
  ghost predicate HandedOut(tokens: seq<Ptr>, buf: array<char>, rs: seq<Span>, k: nat) {
    forall i :: 0 <= i < |tokens| ==> tokens[i] == if k + i < |rs| then At(buf, rs[k + i].start) else Null
  }

  lemma HandOut(token: Ptr, others: seq<Ptr>, buf: array<char>, rs: seq<Span>, k: nat)
    requires token == (if k < |rs| then At(buf, rs[k].start) else Null) && HandedOut(others, buf, rs, k + 1)
    ensures HandedOut([token] + others, buf, rs, k)
  {
  }

  /** Each token reads as its run. */
  ghost predicate TokensRead(t: seq<char>, rs: seq<Span>, s: seq<char>) {
    forall i :: 0 <= i < |rs| ==> Reads(t, rs[i], s)
  }

  lemma AllRead(s: seq<char>, d: set<char>, p: nat, e: nat, n: nat)
    requires p <= e < |s| && s[e] == '\0' && (forall k :: p <= k < e ==> s[k] != '\0')
    ensures Inside(Runs(s, d, p, e), s)
    ensures var rs := First(Runs(s, d, p, e), n); TokensRead(Stamped(s, rs), rs, s)
  {
    RunsInside(s, d, p, e);
    var rs := Runs(s, d, p, e);
    forall i | 0 <= i < |First(rs, n)| ensures Reads(Stamped(s, First(rs, n)), First(rs, n)[i], s) {
      StampedReads(s, d, p, e, n, i);
    }
  }

  ghost predicate Inside(rs: seq<Span>, s: seq<char>) {
    forall i :: 0 <= i < |rs| ==> rs[i].stop < |s|
  }

  ghost function First(rs: seq<Span>, n: nat): seq<Span> {
    if n < |rs| then rs[..n] else rs
  }

  /** The token that starts at `r` reads as the run `r` of the original text. */
  ghost predicate Reads(t: seq<char>, r: Span, s: seq<char>) {
    && r.start < r.stop < |t| == |s|
    && Terminated(t, r.start) && End(t, r.start) == r.stop
    && t[r.start..r.stop] == s[r.start..r.stop]
  }

  ghost function Rest(rs: seq<Span>, n: nat): seq<Span> {
    if n < |rs| then rs[n..] else []
  }

  /** The text from the cursor on is untouched, and `rest` are its runs. */
  ghost predicate Ahead(t: seq<char>, s: seq<char>, d: set<char>, e: nat, rest: seq<Span>, cursor: int) {
    && e < |s| == |t| && s[e] == '\0'
    && if cursor < 0 then rest == []
       else
         && cursor <= e
         && (forall k :: cursor <= k < |s| ==> t[k] == s[k])
         && (forall k :: cursor <= k < e ==> s[k] != '\0')
         && Runs(s, d, cursor, e) == rest
  }

  /** After n calls the first n runs are stamped, and the cursor stands before the others. */
  ghost predicate Standing(t: seq<char>, s: seq<char>, d: set<char>, e: nat, rs: seq<Span>, n: nat, cursor: int) {
    && Inside(rs, s) && t == Stamped(s, First(rs, n))
    && Ahead(t, s, d, e, Rest(rs, n), cursor)
  }

  lemma AheadIsText(t: seq<char>, s: seq<char>, d: set<char>, e: nat, rest: seq<Span>, cursor: int)
    requires Ahead(t, s, d, e, rest, cursor) && cursor >= 0
    ensures Terminated(t, cursor) && End(t, cursor) == e
    ensures Runs(t, d, cursor, e) == rest
  {
    EndUnique(t, cursor, e);
    RunsFrame(s, t, d, cursor, e);
  }

  lemma AheadStays(t: seq<char>, s: seq<char>, d: set<char>, e: nat, cursor: int,
                   t': seq<char>, token: int, cursor': int)
    requires Ahead(t, s, d, e, [], cursor) && cursor >= 0
    requires Terminated(t, cursor) && Advanced(t, d, cursor, t', token, cursor')
    ensures t' == t && token == -1 && Ahead(t', s, d, e, [], cursor')
  {
    AheadIsText(t, s, d, e, [], cursor);
  }

  lemma AheadAdvances(t: seq<char>, s: seq<char>, d: set<char>, e: nat, rest: seq<Span>, cursor: int,
                      t': seq<char>, token: int, cursor': int)
    requires Ahead(t, s, d, e, rest, cursor) && cursor >= 0 && rest != []
    requires Terminated(t, cursor) && Advanced(t, d, cursor, t', token, cursor')
    ensures token == rest[0].start && rest[0].stop < |t| && t' == t[rest[0].stop := '\0']
    ensures Ahead(t', s, d, e, rest[1..], cursor')
  {
    FirstAhead(t, s, d, e, rest, cursor, t', token, cursor');
    AheadMoves(t, s, d, e, rest, cursor, rest[0].stop);
  }

  lemma FirstAhead(t: seq<char>, s: seq<char>, d: set<char>, e: nat, rest: seq<Span>, cursor: int,
                   t': seq<char>, token: int, cursor': int)
    requires Ahead(t, s, d, e, rest, cursor) && cursor >= 0 && rest != []
    requires Terminated(t, cursor) && Advanced(t, d, cursor, t', token, cursor')
    ensures token == rest[0].start && cursor < rest[0].stop <= e
    ensures t' == t[rest[0].stop := '\0'] && cursor' == if rest[0].stop < e then rest[0].stop + 1 else -1
    ensures rest[1..] == RunsBehind(s, d, rest[0].stop, e)
  {
    AheadIsText(t, s, d, e, rest, cursor);
    RunsPeel(s, d, cursor, e);
  }

  lemma AheadMoves(t: seq<char>, s: seq<char>, d: set<char>, e: nat, rest: seq<Span>, cursor: int, stop: nat)
    requires Ahead(t, s, d, e, rest, cursor) && 0 <= cursor < stop <= e
    ensures Ahead(t[stop := '\0'], s, d, e, RunsBehind(s, d, stop, e), if stop < e then stop + 1 else -1)
  {
  }

  lemma StandingStarts(s: seq<char>, d: set<char>, p: nat)
    requires Terminated(s, p)
    ensures
      var rs := Runs(s, d, p, End(s, p));
      Inside(rs, s) && Standing(s, s, d, End(s, p), rs, 0, p)
  {
    var rs := Runs(s, d, p, End(s, p));
    RunsInside(s, d, p, End(s, p));
    assert First(rs, 0) == [];
    assert Rest(rs, 0) == rs;
  }

  lemma StandingAdvances(t: seq<char>, s: seq<char>, d: set<char>, e: nat, rs: seq<Span>, n: nat, cursor: int,
                         t': seq<char>, token: int, cursor': int)
    requires Standing(t, s, d, e, rs, n, cursor)
    requires if cursor < 0 then t' == t && token == cursor' == -1
             else Terminated(t, cursor) && Advanced(t, d, cursor, t', token, cursor')
    ensures Standing(t', s, d, e, rs, n + 1, cursor')
    ensures token == if n < |rs| then rs[n].start else -1
  {
    if n >= |rs| {
      if cursor >= 0 {
        AheadStays(t, s, d, e, cursor, t', token, cursor');
      }
    } else {
      AheadAdvances(t, s, d, e, Rest(rs, n), cursor, t', token, cursor');
      StampOne(s, rs, n);
      assert Rest(rs, n)[1..] == Rest(rs, n + 1);
    }
  }

  lemma RunsPeel(s: seq<char>, d: set<char>, p: nat, e: nat)
    requires p <= e <= |s| && Runs(s, d, p, e) != []
    ensures
      var r := Runs(s, d, p, e)[0];
      p <= r.start < r.stop <= e && Runs(s, d, p, e)[1..] == RunsBehind(s, d, r.stop, e)
  {
    var a := Skip(s, d, p, e, false);
    var b := Skip(s, d, a, e, true);
    RunsCons(s, d, p, e, a, b);
    assert ([Span(a, b)] + RunsBehind(s, d, b, e))[1..] == RunsBehind(s, d, b, e);
  }

  lemma StampOne(s: seq<char>, rs: seq<Span>, n: nat)
    requires Inside(rs, s) && n < |rs|
    ensures Stamped(s, First(rs, n + 1)) == Stamped(s, First(rs, n))[rs[n].stop := '\0']
  {
    assert First(rs, n + 1) == rs[..n + 1];
    assert rs[..n + 1][..n] == First(rs, n);
  }

  lemma RunsInside(s: seq<char>, d: set<char>, p: nat, e: nat)
    requires p <= e < |s|
    ensures Inside(Runs(s, d, p, e), s)
  {
    RunsExact(s, d, p, e);
    var rs := Runs(s, d, p, e);
    forall i | 0 <= i < |rs| ensures rs[i].stop < |s| {
      assert rs[i] in rs;
    }
  }

  /** Stamps fall behind the runs, never inside one. */
  lemma StampedReads(s: seq<char>, d: set<char>, p: nat, e: nat, n: nat, i: nat)
    requires p <= e < |s| && s[e] == '\0' && (forall k :: p <= k < e ==> s[k] != '\0')
    requires i < n && i < |Runs(s, d, p, e)|
    ensures Inside(Runs(s, d, p, e), s)
    ensures Reads(Stamped(s, First(Runs(s, d, p, e), n)), Runs(s, d, p, e)[i], s)
  {
    RunsExact(s, d, p, e);
    RunsInside(s, d, p, e);
    var rs := Runs(s, d, p, e);
    var t, r := Stamped(s, First(rs, n)), rs[i];
    assert r in rs && IsRun(s, d, p, e, r);
    NoStopInside(s, d, p, e, i);
    StampedOnly(s, First(rs, n));
    assert forall j :: 0 <= j < |First(rs, n)| ==> First(rs, n)[j] == rs[j];
    assert forall k :: r.start <= k < r.stop ==> t[k] == s[k];
    assert First(rs, n)[i] == r;
    ReadsAs(t, r, s);
  }

  lemma ReadsAs(t: seq<char>, r: Span, s: seq<char>)
    requires r.start < r.stop < |t| == |s| && t[r.stop] == '\0'
    requires forall k :: r.start <= k < r.stop ==> t[k] == s[k] && s[k] != '\0'
    ensures Reads(t, r, s)
  {
    EndUnique(t, r.start, r.stop);
  }

  lemma NoStopInside(s: seq<char>, d: set<char>, p: nat, e: nat, i: nat)
    requires p <= e <= |s| && i < |Runs(s, d, p, e)|
    ensures
      var rs := Runs(s, d, p, e);
      forall j :: 0 <= j < |rs| ==> rs[j].stop < rs[i].start || rs[j].stop >= rs[i].stop
  {
    RunsExact(s, d, p, e);
    var rs := Runs(s, d, p, e);
    forall j | 0 <= j < |rs| ensures rs[j].stop < rs[i].start || rs[j].stop >= rs[i].stop {
      assert rs[j] in rs && IsRun(s, d, p, e, rs[j]);
    }
  }
}
