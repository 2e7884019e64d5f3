// The shortcode grammar of report templates: a template is literal text
// interleaved with `[Name]` tokens. This module proves what the fold of
// `str_replace` passes does to such a text.

module Tokens {
  import opened Php

  /** Text without an opening bracket: no token can start inside it. */
  type Plain = s: string | '[' !in s

  /** A token name: no brackets at all. */
  type Name = s: string | '[' !in s && ']' !in s

  /** The search key of a token. */
  function Key(n: string): (k: string)
    ensures |k| == |n| + 2 && k[0] == '[' && k[|k| - 1] == ']'
    ensures k[1..|k| - 1] == n
  {
    "[" + n + "]"
  }

  lemma KeyInjective(a: string, b: string)
    ensures Key(a) == Key(b) <==> a == b
  {
    if Key(a) == Key(b) {
      assert a == Key(a)[1..|Key(a)| - 1];
    }
  }

  /** A key that is `Key(n)` for a bracket-free name `n`. */
  predicate IsTokenKey(k: string)
  {
    |k| >= 2 && k[0] == '[' && k[|k| - 1] == ']' && '[' !in k[1..|k| - 1] && ']' !in k[1..|k| - 1]
  }

  lemma TokenKeyName(k: string) returns (n: Name)
    requires IsTokenKey(k)
    ensures Key(n) == k
  {
    n := k[1..|k| - 1];
  }

  datatype Piece = Lit(text: Plain) | Tok(name: Name)

  function PieceText(p: Piece): string
  {
    match p
    case Lit(t) => t
    case Tok(n) => Key(n)
  }

  /** The template text the pieces spell. */
  function Render(ps: seq<Piece>): string
  {
    if ps == [] then "" else PieceText(ps[0]) + Render(ps[1..])
  }

  /**
   * The intended meaning of substitution: every token with an entry in `m`
   * becomes its value, every other token stays verbatim.
   */
  function Resolve(ps: seq<Piece>, m: Assoc<string>): string
  {
    if ps == [] then ""
    else
      var head := match ps[0]
        case Lit(t) => t
        case Tok(n) => Lookup(m, Key(n)).GetOr(Key(n));
      head + Resolve(ps[1..], m)
  }

  lemma {:induction false} RenderAppend(a: seq<Piece>, b: seq<Piece>)
    ensures Render(a + b) == Render(a) + Render(b)
  {
    if a == [] {
      assert a + b == b;
    } else {
      assert (a + b)[1..] == a[1..] + b;
      RenderAppend(a[1..], b);
    }
  }

  lemma {:induction false} ResolveAppend(a: seq<Piece>, b: seq<Piece>, m: Assoc<string>)
    ensures Resolve(a + b, m) == Resolve(a, m) + Resolve(b, m)
  {
    if a == [] {
      assert a + b == b;
    } else {
      assert (a + b)[1..] == a[1..] + b;
      ResolveAppend(a[1..], b, m);
    }
  }

  /** The one-token substitution `str_replace(Key(n), v, ...)` performs. */
  function FillOne(ps: seq<Piece>, n: Name, v: Plain): (r: seq<Piece>)
    ensures |r| == |ps|
  {
    if ps == [] then []
    else
      var head := if ps[0] == Tok(n) then Lit(v) else ps[0];
      [head] + FillOne(ps[1..], n, v)
  }

  /** A bracket-free prefix is copied past a search key that starts with '['. */
  lemma {:induction false} ReplacePlainPrefix(t: Plain, rest: string, k: string, v: string)
    requires |k| > 0 && k[0] == '['
    ensures ReplaceAll(t + rest, k, v) == t + ReplaceAll(rest, k, v)
    decreases |t|
  {
    if t != [] {
      var s := t + rest;
      assert s[0] == t[0] && t[0] != '[';
      assert !(|k| <= |s| && s[..|k|] == k);
      assert s[1..] == t[1..] + rest;
      var t': Plain := t[1..];
      ReplacePlainPrefix(t', rest, k, v);
    } else {
      assert t + rest == rest;
    }
  }

  /** The key itself at the front is replaced. */
  lemma ReplaceKeyPrefix(k: string, rest: string, v: string)
    requires |k| > 0
    ensures ReplaceAll(k + rest, k, v) == v + ReplaceAll(rest, k, v)
  {
    var s := k + rest;
    assert s[..|k|] == k && s[|k|..] == rest;
  }

  /** The key of one token is never a prefix of the text of another. */
  lemma KeyNotPrefix(n: Name, m: Name, s: string)
    requires n != m
    requires |Key(m)| <= |s| && s[..|Key(m)|] == Key(m)
    ensures !(|Key(n)| <= |s| && s[..|Key(n)|] == Key(n))
  {
  }

  /** Without a match at the front, the scan copies one character. */
  lemma ReplaceSkip(s: string, k: string, v: string)
    requires |k| > 0 && |s| > 0
    requires !(|k| <= |s| && s[..|k|] == k)
    ensures ReplaceAll(s, k, v) == [s[0]] + ReplaceAll(s[1..], k, v)
  {
  }

  /** Another token's key at the front is copied verbatim. */
  lemma ReplaceOtherToken(n: Name, m: Name, rest: string, v: string)
    requires n != m
    ensures ReplaceAll(Key(m) + rest, Key(n), v) == Key(m) + ReplaceAll(rest, Key(n), v)
  {
    var s := Key(m) + rest;
    assert s[..|Key(m)|] == Key(m);
    KeyNotPrefix(n, m, s);
    ReplaceSkip(s, Key(n), v);
    var tail: Plain := m + "]";
    assert s[1..] == tail + rest;
    ReplacePlainPrefix(tail, rest, Key(n), v);
    var x := ReplaceAll(rest, Key(n), v);
    assert Key(m) == [s[0]] + tail;
    assert [s[0]] + (tail + x) == ([s[0]] + tail) + x;
  }

  /** One `str_replace` pass fills exactly the tokens with that key. */
  lemma {:induction false} ReplaceStep(ps: seq<Piece>, n: Name, v: Plain)
    ensures ReplaceAll(Render(ps), Key(n), v) == Render(FillOne(ps, n, v))
  {
    if ps != [] {
      ReplaceStep(ps[1..], n, v);
      var rest := Render(ps[1..]);
      match ps[0]
      case Lit(t) =>
        ReplacePlainPrefix(t, rest, Key(n), v);
      case Tok(m) =>
        if m == n {
          ReplaceKeyPrefix(Key(n), rest, v);
          var l: Plain := v;
          assert FillOne(ps, n, v) == [Lit(l)] + FillOne(ps[1..], n, v);
        } else {
          ReplaceOtherToken(n, m, rest, v);
        }
    }
  }

  /** A pair list whose every key is a token key and every value is plain. */
  predicate TokenPairs(pairs: Assoc<string>)
  {
    forall i :: 0 <= i < |pairs| ==> IsTokenKey(pairs[i].0) && '[' !in pairs[i].1
  }

  /** Every search key opens with '['. */
  predicate BracketKeys(pairs: Assoc<string>)
  {
    forall k :: k in Keys(pairs) ==> |k| > 0 && k[0] == '['
  }

  /** The `str_replace` fold over a list of (key, value) pairs. */
  function ApplyPairs(s: string, pairs: Assoc<string>): string
    decreases |pairs|
  {
    if pairs == [] then s else ApplyPairs(ReplaceAll(s, pairs[0].0, pairs[0].1), pairs[1..])
  }

  /** A text without '[' holds no search key, so the fold leaves it as it is. */
  lemma {:induction false} ApplyPairsPlain(s: string, pairs: Assoc<string>)
    requires BracketKeys(pairs)
    ensures '[' !in s ==> ApplyPairs(s, pairs) == s
    decreases |pairs|
  {
    if pairs != [] && '[' !in s {
      assert pairs[0].0 == Keys(pairs)[0];
      ReplacePlainPrefix(s, "", pairs[0].0, pairs[0].1);
      assert s + "" == s;
      assert Keys(pairs[1..]) == Keys(pairs)[1..];
      ApplyPairsPlain(s, pairs[1..]);
    }
  }

  lemma {:induction false} ResolveFill(ps: seq<Piece>, n: Name, v: Plain, rest: Assoc<string>)
    ensures Resolve(FillOne(ps, n, v), rest) == Resolve(ps, [(Key(n), v)] + rest)
  {
    if ps != [] {
      ResolveFill(ps[1..], n, v, rest);
      match ps[0]
      case Lit(t) =>
      case Tok(m) =>
        if m != n {
          KeyInjective(m, n);
        }
    }
  }

  /**
   * The fold over token pairs means `Resolve` with first-match lookup:
   * since no value contains '[', no pass can create a token for a later
   * pass.
   */
  lemma {:induction false} ApplyPairsResolves(ps: seq<Piece>, pairs: Assoc<string>)
    requires TokenPairs(pairs)
    ensures ApplyPairs(Render(ps), pairs) == Resolve(ps, pairs)
    decreases |pairs|
  {
    if pairs == [] {
      ResolveEmpty(ps);
    } else {
      var n := TokenKeyName(pairs[0].0);
      var v: Plain := pairs[0].1;
      ReplaceStep(ps, n, v);
      assert TokenPairs(pairs[1..]) by {
        forall i | 0 <= i < |pairs[1..]|
          ensures IsTokenKey(pairs[1..][i].0) && '[' !in pairs[1..][i].1
        {
          assert pairs[1..][i] == pairs[i + 1];
        }
      }
      ApplyPairsResolves(FillOne(ps, n, v), pairs[1..]);
      ResolveFill(ps, n, v, pairs[1..]);
      assert pairs == [(Key(n), v)] + pairs[1..];
    }
  }

  lemma {:induction false} ResolveEmpty(ps: seq<Piece>)
    ensures Resolve(ps, []) == Render(ps)
  {
    if ps != [] {
      ResolveEmpty(ps[1..]);
    }
  }

  /** Resolution only looks keys up, so any two maps that agree give the same text. */
  lemma {:induction false} ResolveSameLookups(ps: seq<Piece>, a: Assoc<string>, b: Assoc<string>)
    requires forall k :: Lookup(a, k) == Lookup(b, k)
    ensures Resolve(ps, a) == Resolve(ps, b)
  {
    if ps != [] {
      ResolveSameLookups(ps[1..], a, b);
    }
  }

  /** A token with no entry stays in the output verbatim. */
  lemma UnknownTokenKept(pre: seq<Piece>, n: Name, post: seq<Piece>, m: Assoc<string>)
    requires Lookup(m, Key(n)) == None
    ensures Resolve(pre + [Tok(n)] + post, m)
         == Resolve(pre, m) + Key(n) + Resolve(post, m)
  {
    ResolveAppend(pre + [Tok(n)], post, m);
    ResolveAppend(pre, [Tok(n)], m);
    assert Resolve([Tok(n)], m) == Key(n) + Resolve([], m);
  }
}
