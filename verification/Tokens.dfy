/** The destructive tokenizer (compat/strsep.c). */
module Tokens {
  import opened Wrappers

  const NUL := 0 as char

  // ----- what tokenizing is

  /** The pieces of s between the characters of delim. */
  function Split(s: string, delim: string): (ts: seq<string>)
    ensures ts != []
  {
    if s == "" then [""]
    else
      var ts := Split(s[1..], delim);
      if s[0] in delim then [""] + ts else [[s[0]] + ts[0]] + ts[1..]
  }

  /** The delimiters of s, in order. */
  function Separators(s: string, delim: string): seq<char> {
    if s == "" then []
    else (if s[0] in delim then [s[0]] else []) + Separators(s[1..], delim)
  }

  function Interleave(ts: seq<string>, seps: seq<char>): string
    requires |ts| == |seps| + 1
  {
    if seps == [] then ts[0] else ts[0] + [seps[0]] + Interleave(ts[1..], seps[1..])
  }

  predicate Free(t: string, delim: string) {
    forall c :: c in t ==> c !in delim
  }

  predicate AllFree(ts: seq<string>, delim: string) {
    forall i :: 0 <= i < |ts| ==> Free(ts[i], delim)
  }

  /** One token more than delimiters, no delimiter in a token, and tokens and delimiters interleaved
      give the string back. */
  lemma {:induction false} SplitRebuilds(s: string, delim: string)
    ensures |Split(s, delim)| == |Separators(s, delim)| + 1
    ensures AllFree(Split(s, delim), delim)
    ensures Interleave(Split(s, delim), Separators(s, delim)) == s
  {
    if s != "" {
      SplitRebuilds(s[1..], delim);
      var ts, seps := Split(s[1..], delim), Separators(s[1..], delim);
      if s[0] in delim {
        assert ([""] + ts)[1..] == ts && ([s[0]] + seps)[1..] == seps;
      } else if seps != [] {
        var us := [[s[0]] + ts[0]] + ts[1..];
        assert us[1..] == ts[1..] && Separators(s, delim) == seps;
        assert Interleave(us, seps) == [s[0]] + (ts[0] + [seps[0]] + Interleave(ts[1..], seps[1..]));
      } else {
        assert Separators(s, delim) == seps;
      }
    }
  }

  /** Conversely, only the split has these properties. */
  lemma {:induction false} OnlySplit(ts: seq<string>, seps: seq<char>, delim: string)
    requires |ts| == |seps| + 1 && AllFree(ts, delim) && forall c :: c in seps ==> c in delim
    ensures Split(Interleave(ts, seps), delim) == ts && Separators(Interleave(ts, seps), delim) == seps
    decreases |seps|
  {
    if seps == [] {
      SplitFree(ts[0], delim);
    } else {
      var rest := Interleave(ts[1..], seps[1..]);
      OnlySplit(ts[1..], seps[1..], delim);
      SplitAt(ts[0], seps[0], rest, delim);
      assert ts == [ts[0]] + ts[1..] && seps == [seps[0]] + seps[1..];
    }
  }

  lemma {:induction false} SplitFree(t: string, delim: string)
    requires Free(t, delim)
    ensures Split(t, delim) == [t] && Separators(t, delim) == []
  {
    if t != "" {
      assert t[0] in t && t == [t[0]] + t[1..];
      SplitFree(t[1..], delim);
    }
  }

  lemma {:induction false} SplitAt(t: string, d: char, rest: string, delim: string)
    requires Free(t, delim) && d in delim
    ensures Split(t + [d] + rest, delim) == [t] + Split(rest, delim)
    ensures Separators(t + [d] + rest, delim) == [d] + Separators(rest, delim)
  {
    var s := t + [d] + rest;
    if t == "" {
      assert s[1..] == rest;
    } else {
      assert t[0] in t && s[1..] == t[1..] + [d] + rest;
      SplitAt(t[1..], d, rest, delim);
      assert t == [t[0]] + t[1..];
      assert ([t[1..]] + Split(rest, delim))[1..] == Split(rest, delim);
    }
  }

  /** s with its delimiters overwritten. */
  function Blanked(s: string, delim: string): string {
    seq(|s|, i requires 0 <= i < |s| => if s[i] in delim then NUL else s[i])
  }

  /** ptr points to the C string t in memory m. */
  predicate PointsTo(m: seq<char>, ptr: nat, t: string) {
    ptr + |t| < |m| && m[ptr..ptr + |t|] == t && m[ptr + |t|] == NUL && NUL !in t
  }

  // ----- the function

  /** The scan of delim, with its terminating NUL. */
  method Hits(c: char, delim: string) returns (hit: bool)
    ensures hit <==> c == NUL || c in delim
  {
    var spanp := 0;
    while true
      invariant 0 <= spanp <= |delim| && c !in delim[..spanp]
      decreases |delim| - spanp
    {
      var sc := if spanp < |delim| then delim[spanp] else NUL;
      spanp := spanp + 1;
      if sc == c {
        return true;
      }
      if spanp > |delim| {
        return false;
      }
    }
  }

  /** A string being taken apart. stringp is where the next token starts; `end` is the place of the
      string's terminating NUL. */
  class Tokenizer {
    const text: array<char>
    const end: nat
    var stringp: Option<nat>

    ghost predicate Valid()
      reads this, text
    {
      && end < text.Length && text[end] == NUL
      && (stringp.Some? ==> stringp.value <= end && NUL !in text[stringp.value..end])
    }

    /** What is left to tokenize. */
    ghost function Rest(): string
      requires Valid() && stringp.Some?
      reads this, text
    {
      text[stringp.value..end]
    }

    constructor (text: array<char>, end: nat)
      requires end < text.Length && text[end] == NUL && NUL !in text[..end]
      ensures this.text == text && this.end == end && stringp == Some(0) && Valid()
    {
      this.text, this.end, stringp := text, end, Some(0);
      new;
      assert text[0..end] == text[..end];
    }

    /** strsep: the next token, cut off by a NUL in place of its delimiter. */
    method StrSep(delim: string) returns (tok: Option<nat>)
      requires Valid() && NUL !in delim
      modifies this, text
      ensures Valid() && tok == old(stringp)
      ensures old(stringp).None? ==> stringp.None? && text[..] == old(text[..])
      ensures old(stringp).Some? ==>
                var p, ts := old(stringp).value, Split(old(Rest()), delim);
                && PointsTo(text[..], p, ts[0])
                && (|ts| == 1 ==> stringp == None && text[..] == old(text[..]))
                && (|ts| > 1 ==> stringp == Some(p + |ts[0]| + 1) && p + |ts[0]| < end
                                 && old(text[p + |ts[0]|]) in delim
                                 && text[..] == old(text[..])[p + |ts[0]| := NUL]
                                 && Split(Rest(), delim) == ts[1..])
    {
      if stringp.None? {
        return None;
      }
      var start := stringp.value;
      var s := TokenEnd(delim, start);
      tok := Some(start);
      TokenIs(text[..], start, s, end, delim);
      if text[s] == NUL {
        stringp := None;
      } else {
        CutToken(s);
      }
    }

    /** The scan to the end of the token: to the first delimiter, or the terminating NUL. */
    method TokenEnd(delim: string, start: nat) returns (s: nat)
      requires Valid() && stringp == Some(start) && NUL !in delim
      ensures start <= s <= end && Free(text[start..s], delim)
      ensures text[s] == NUL || text[s] in delim
      ensures text[s] == NUL <==> s == end
    {
      ghost var rest := Rest();
      s := start;
      while true
        invariant start <= s <= end && Free(text[start..s], delim)
        decreases end - s
      {
        if s < end {
          assert text[s] == rest[s - start] && rest[s - start] in rest;
        }
        var hit := Hits(text[s], delim);
        if hit {
          return;
        }
        assert text[start..s+1] == text[start..s] + [text[s]];
        s := s + 1;
      }
    }

    /** The delimiter at s overwritten, the next token after it. */
    method CutToken(s: nat)
      requires Valid() && stringp.Some? && stringp.value <= s < end
      modifies this, text
      ensures Valid() && stringp == Some(s + 1)
      ensures text[..] == old(text[..])[s := NUL]
      ensures Rest() == old(text[s+1..end])
    {
      ghost var rest := Rest();
      text[s] := NUL;
      assert text[s+1..end] == old(text[s+1..end]) == rest[s + 1 - stringp.value..];
      stringp := Some(s + 1);
    }

    /** Calling strsep until it returns NULL: terminates with the split of the string; every token
        pointer still points to its token at the end, and only the delimiters were overwritten. */
    method AllTokens(delim: string) returns (toks: seq<nat>)
      requires Valid() && NUL !in delim && stringp == Some(0)
      modifies this, text
      ensures stringp.None?
      ensures var s := old(text[..end]);
              && |toks| == |Split(s, delim)|
              && (forall i :: 0 <= i < |toks| ==> PointsTo(text[..], toks[i], Split(s, delim)[i]))
              && text[..] == Blanked(s, delim) + old(text[end..])
    {
      ghost var before, s := text[..], text[..end];
      ghost var all := Split(s, delim);
      assert Rest() == s;
      SplitRebuilds(s, delim);
      toks := [];
      var tok := Following(delim, before, all, toks);
      while tok.Some?
        invariant Valid() && Underway(delim, before, all, Taken(toks, tok))
        invariant tok.None? ==> stringp.None?
        decreases end + 1 - Bound() + if tok.Some? then 1 else 0
      {
        toks := toks + [tok.value];
        tok := Following(delim, before, all, toks);
      }
      AllBlanked(before, text[..], end, delim);
    }

    /** Some tokens have been taken off. */
    ghost predicate Underway(delim: string, before: seq<char>, all: seq<string>, toks: seq<nat>)
      reads this, text
      requires Valid()
    {
      && AllFree(all, delim) && |toks| <= |all|
      && (if stringp.Some? then Split(Rest(), delim) == all[|toks|..] else |toks| == |all|)
      && Progress(before, text[..], Bound(), end, delim)
      && AllPoint(text[..], toks, all, Bound())
    }

    /** One call in the middle of a run. */
    method Following(delim: string, ghost before: seq<char>, ghost all: seq<string>, ghost toks: seq<nat>)
      returns (tok: Option<nat>)
      requires Valid() && NUL !in delim && Underway(delim, before, all, toks)
      modifies this, text
      ensures Valid() && Underway(delim, before, all, Taken(toks, tok))
      ensures tok.None? ==> stringp.None?
      ensures tok.Some? ==> Bound() > old(Bound())
      ensures tok.None? ==> Bound() == old(Bound())
    {
      ghost var m, k := text[..], |toks|;
      tok := StrSep(delim);
      if tok.Some? {
        ghost var p: nat := tok.value;
        assert all[k..][0] == all[k] && all[k..][1..] == all[k+1..];
        OneMore(before, m, text[..], toks, all, p, end, delim);
      }
    }

    /** The first position not yet looked at. */
    ghost function Bound(): nat
      reads this
    {
      if stringp.Some? then stringp.value else end + 1
    }
  }

  /** A token that ends at s, a delimiter or the terminating NUL, and what splitting makes of the rest. */
  lemma TokenIs(m: seq<char>, start: nat, s: nat, end: nat, delim: string)
    requires start <= s <= end < |m| && Free(m[start..s], delim) && NUL !in m[start..end] && m[end] == NUL
    requires s < end ==> m[s] in delim
    ensures s == end ==> Split(m[start..end], delim) == [m[start..s]]
    ensures s < end ==> Split(m[start..end], delim) == [m[start..s]] + Split(m[s+1..end], delim)
    ensures PointsTo(m[s := NUL], start, m[start..s])
  {
    var t := m[start..s];
    assert NUL !in t by { assert t == m[start..end][..|t|]; }
    assert m[s := NUL][start..start + |t|] == t;
    if s == end {
      SplitFree(t, delim);
    } else {
      SplitAt(t, m[s], m[s+1..end], delim);
      assert m[start..end] == t + [m[s]] + m[s+1..end];
    }
  }

  function Taken(toks: seq<nat>, tok: Option<nat>): seq<nat> {
    if tok.Some? then toks + [tok.value] else toks
  }

  /** Below the bound the delimiters have been overwritten; nothing else has changed. */
  ghost predicate Progress(before: seq<char>, m: seq<char>, bound: nat, end: nat, delim: string) {
    && |m| == |before|
    && forall j :: 0 <= j < |m| ==> m[j] == if j < bound && j < end && before[j] in delim then NUL else before[j]
  }

  /** The first tokens are where the pointers say, below the bound. */
  ghost predicate AllPoint(m: seq<char>, toks: seq<nat>, all: seq<string>, bound: nat) {
    && |toks| <= |all|
    && forall i :: 0 <= i < |toks| ==> PointsTo(m, toks[i], all[i]) && toks[i] + |all[i]| < bound
  }

  lemma Advance(before: seq<char>, m: seq<char>, m': seq<char>, p: nat, t: string, end: nat, delim: string)
    requires Progress(before, m, p, end, delim) && end < |m| && p + |t| <= end
    requires PointsTo(m', p, t) && Free(t, delim)
    requires m' == m || (p + |t| < end && m[p + |t|] in delim && m' == m[p + |t| := NUL])
    requires m' == m ==> p + |t| == end
    ensures Progress(before, m', p + |t| + 1, end, delim)
  {
    forall j | p <= j < p + |t| ensures before[j] !in delim {
      assert m'[j] == m'[p..p + |t|][j - p] && t[j - p] in t;
    }
  }

  lemma AllBlanked(before: seq<char>, m: seq<char>, end: nat, delim: string)
    requires end < |before| && Progress(before, m, end + 1, end, delim)
    ensures m == Blanked(before[..end], delim) + before[end..]
  {
  }

  lemma OneMore(before: seq<char>, m: seq<char>, m': seq<char>, toks: seq<nat>, all: seq<string>,
                p: nat, end: nat, delim: string)
    requires Progress(before, m, p, end, delim) && end < |m| && |toks| < |all|
    requires AllPoint(m, toks, all, p)
    requires var t := all[|toks|];
             && p + |t| <= end && PointsTo(m', p, t) && Free(t, delim)
             && (m' == m || (p + |t| < end && m[p + |t|] in delim && m' == m[p + |t| := NUL]))
             && (m' == m ==> p + |t| == end)
    ensures Progress(before, m', p + |all[|toks|]| + 1, end, delim)
    ensures AllPoint(m', toks + [p], all, p + |all[|toks|]| + 1)
  {
    Advance(before, m, m', p, all[|toks|], end, delim);
    StillPoint(m, m', toks, all, p);
  }

  lemma StillPoint(m: seq<char>, m': seq<char>, toks: seq<nat>, all: seq<string>, bound: nat)
    requires AllPoint(m, toks, all, bound) && |m| == |m'|
    requires forall j :: 0 <= j < bound && j < |m| ==> m[j] == m'[j]
    ensures AllPoint(m', toks, all, bound)
  {
    forall i | 0 <= i < |toks| ensures PointsTo(m', toks[i], all[i]) {
      assert m'[toks[i]..toks[i] + |all[i]|] == m[toks[i]..toks[i] + |all[i]|];
    }
  }
}
