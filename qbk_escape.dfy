/**
  qbk_escaped (quickbook_output.hpp, lines 21-57): protects underscores from
  being read as Quickbook underlining by writing them as the six characters `\u005f`,
  except inside Quickbook markup (between `[` and `]`) and except right after
  a backslash, whose following character is always copied as it is.
*/
module QbkEscape {
  import opened BoostString
  import opened OutputText

  /** The text written in place of an unprotected underscore. */
  const UnicodeUnderscore: string := "\\u005f"

  /**
    The scan of qbk_escaped, started with the bracket counter at `counter`.
    `[` and `]` move the counter (it may go negative), a backslash is copied
    with the character after it (alone when it is the last character), and an
    underscore is rewritten only while the counter is zero.
  */
  function Escape(s: string, counter: int): (r: string)
    ensures |r| >= |s|
    decreases |s|
  {
    if s == [] then []
    else if s[0] == '[' then [s[0]] + Escape(s[1..], counter + 1)
    else if s[0] == ']' then [s[0]] + Escape(s[1..], counter - 1)
    else if s[0] == '\\' then (if |s| == 1 then s else s[..2] + Escape(s[2..], counter))
    else if s[0] == '_' && counter == 0 then UnicodeUnderscore + Escape(s[1..], counter)
    else [s[0]] + Escape(s[1..], counter)
  }

  /** The part of `s` from index i on; the scan can step one past the end after a trailing backslash. */
  function From(s: string, i: nat): string {
    if i <= |s| then s[i..] else []
  }

  /** qbk_escaped: the character loop with its bracket counter. */
  method QbkEscaped(s: string) returns (result: string)
    ensures result == Escape(s, 0)
  {
    var len := |s|;
    var counter := 0;
    result := "";
    var i := 0;
    while i < len
      invariant i <= len + 1
      invariant result + Escape(From(s, i), counter) == Escape(s, 0)
      decreases len + 1 - i
    {
      ghost var i0, counter0, result0 := i, counter, result;
      var c := s[i];
      if c == '[' {
        counter := counter + 1;
      } else if c == ']' {
        counter := counter - 1;
      } else if c == '\\' {
        result := result + [c];
        if i + 1 < len {
          result := result + [s[i + 1]];
        }
        i := i + 2;
        BackslashStep(s, i0, counter, result0, result, i);
        continue;
      } else if c == '_' && counter == 0 {
        result := result + UnicodeUnderscore;
        i := i + 1;
        UnderscoreStep(s, i0, result0, result, i);
        continue;
      }
      result := result + [c];
      i := i + 1;
      CopyStep(s, i0, counter0, counter, result0, result, i);
    }
  }

  /** A backslash is copied together with the character after it, if there is one. */
  lemma BackslashStep(s: string, i: nat, counter: int, res: string, nextRes: string, j: nat)
    requires i < |s| && s[i] == '\\' && j == i + 2
    requires nextRes == if i + 1 < |s| then res + [s[i]] + [s[i + 1]] else res + [s[i]]
    ensures res + Escape(From(s, i), counter) == nextRes + Escape(From(s, j), counter)
  {
    var x := From(s, i);
    if i + 1 < |s| {
      assert x[2..] == From(s, j);
      BackslashPair(x, counter);
      assert res + [s[i]] + [s[i + 1]] == res + [x[0], x[1]];
      AppendAssoc(res, [x[0], x[1]], Escape(From(s, j), counter));
    } else {
      assert x == [s[i]] && From(s, j) == [];
      assert Escape(x, counter) == [s[i]];
    }
  }

  lemma BackslashPair(x: string, counter: int)
    requires |x| >= 2 && x[0] == '\\'
    ensures Escape(x, counter) == [x[0], x[1]] + Escape(x[2..], counter)
  {
    assert x[..2] == [x[0], x[1]];
  }

  /** An underscore at counter zero becomes the escape. */
  lemma UnderscoreStep(s: string, i: nat, res: string, nextRes: string, j: nat)
    requires i < |s| && s[i] == '_' && j == i + 1
    requires nextRes == res + UnicodeUnderscore
    ensures res + Escape(From(s, i), 0) == nextRes + Escape(From(s, j), 0)
  {
    var x := From(s, i);
    assert x[0] == '_' && x[1..] == From(s, j);
    assert Escape(x, 0) == UnicodeUnderscore + Escape(From(s, j), 0);
    AppendAssoc(res, UnicodeUnderscore, Escape(From(s, j), 0));
  }

  /** Any other character is copied; a bracket moves the counter. */
  lemma CopyStep(s: string, i: nat, counter: int, nextCounter: int, res: string, nextRes: string, j: nat)
    requires i < |s| && s[i] != '\\' && !(s[i] == '_' && counter == 0) && j == i + 1
    requires nextCounter == Escape1Counter(s[i], counter)
    requires nextRes == res + [s[i]]
    ensures res + Escape(From(s, i), counter) == nextRes + Escape(From(s, j), nextCounter)
  {
    var x := From(s, i);
    assert x[0] == s[i] && x[1..] == From(s, j);
    assert Escape(x, counter) == [s[i]] + Escape(From(s, j), nextCounter);
    AppendAssoc(res, [s[i]], Escape(From(s, j), nextCounter));
  }

  // ---------------------------------------------------------------------------
  // An independent description: tokens and bracket depth
  // ---------------------------------------------------------------------------

  /** The units the scan consumes: a backslash with the character after it, or a single character. */
  function Tokens(s: string): seq<string>
    decreases |s|
  {
    if s == [] then []
    else if s[0] == '\\' && |s| >= 2 then [s[..2]] + Tokens(s[2..])
    else [s[..1]] + Tokens(s[1..])
  }

  function Flatten(ts: seq<string>): string {
    if ts == [] then [] else ts[0] + Flatten(ts[1..])
  }

  /** Cutting a string into tokens loses nothing. */
  lemma {:induction false} FlattenTokens(s: string)
    ensures Flatten(Tokens(s)) == s
    decreases |s|
  {
    if s == [] {
    } else if s[0] == '\\' && |s| >= 2 {
      FlattenTokens(s[2..]);
      assert s[..2] + s[2..] == s;
    } else {
      FlattenTokens(s[1..]);
      assert s[..1] + s[1..] == s;
    }
  }

  /** How a token moves the bracket counter: only an unescaped bracket does. */
  function Shift(t: string): int {
    if t == "[" then 1 else if t == "]" then -1 else 0
  }

  /** The bracket depth reached after a run of tokens. */
  function Depth(ts: seq<string>): int {
    if ts == [] then 0 else Shift(ts[0]) + Depth(ts[1..])
  }

  /** What a token becomes at a given depth. */
  function Piece(t: string, depth: int): string {
    if t == "_" && depth == 0 then UnicodeUnderscore else t
  }

  /** The output, token by token: token j is rewritten from the depth reached before it. */
  function Pieces(ts: seq<string>, counter: int): seq<string> {
    seq(|ts|, j requires 0 <= j < |ts| => Piece(ts[j], counter + Depth(ts[..j])))
  }

  /** What is left after the first token. */
  function TokenRest(s: string): string
    requires s != []
  {
    if s[0] == '\\' && |s| >= 2 then s[2..] else s[1..]
  }

  /** One step of the scan is one token. */
  lemma EscapeStep(s: string, counter: int)
    requires s != []
    ensures Tokens(s) != [] && Tokens(s)[1..] == Tokens(TokenRest(s))
    ensures Escape(s, counter)
      == Piece(Tokens(s)[0], counter) + Escape(TokenRest(s), counter + Shift(Tokens(s)[0]))
  {
    if s[0] == '\\' && |s| >= 2 {
      assert Tokens(s)[0] == s[..2] && |s[..2]| == 2;
    } else {
      assert Tokens(s)[0] == [s[0]];
    }
  }

  /** The pieces of a token run: the first token's, then the rest's from the counter it leaves. */
  lemma PiecesCons(ts: seq<string>, counter: int)
    requires ts != []
    ensures Flatten(Pieces(ts, counter))
      == Piece(ts[0], counter) + Flatten(Pieces(ts[1..], counter + Shift(ts[0])))
  {
    var ps := Pieces(ts, counter);
    assert ps[0] == Piece(ts[0], counter);
    assert ps[1..] == Pieces(ts[1..], counter + Shift(ts[0])) by {
      forall j | 0 <= j < |ts| - 1
        ensures ps[1..][j] == Pieces(ts[1..], counter + Shift(ts[0]))[j]
      {
        assert ts[..j + 1][1..] == ts[1..][..j];
      }
    }
  }

  /**
    qbk_escaped replaces each token independently: a lone underscore token
    whose depth (the start counter plus the unescaped brackets before it) is
    zero becomes `\u005f`; every other token, including an underscore right
    after a backslash and escaped brackets, is copied as it is.
  */
  lemma {:induction false} EscapeByTokens(s: string, counter: int)
    ensures Escape(s, counter) == Flatten(Pieces(Tokens(s), counter))
    decreases |s|
  {
    if s != [] {
      EscapeStep(s, counter);
      var t0 := Tokens(s)[0];
      EscapeByTokens(TokenRest(s), counter + Shift(t0));
      PiecesCons(Tokens(s), counter);
    }
  }

  /** The number of underscores the scan rewrites. */
  function RewriteCount(ts: seq<string>, counter: int): nat {
    if ts == [] then 0
    else (if ts[0] == "_" && counter == 0 then 1 else 0) + RewriteCount(ts[1..], counter + Shift(ts[0]))
  }

  /** A string is its first token followed by the rest. */
  lemma TokenSplit(s: string)
    requires s != []
    ensures Tokens(s) != [] && s == Tokens(s)[0] + TokenRest(s)
  {
    if s[0] == '\\' && |s| >= 2 {
      assert s == s[..2] + s[2..];
    } else {
      assert s == s[..1] + s[1..];
    }
  }

  /** Each rewritten underscore grows the text by five characters; nothing else changes the length. */
  lemma {:induction false} EscapeLength(s: string, counter: int)
    ensures |Escape(s, counter)| == |s| + 5 * RewriteCount(Tokens(s), counter)
    decreases |s|
  {
    if s != [] {
      EscapeStep(s, counter);
      TokenSplit(s);
      EscapeLength(TokenRest(s), counter + Shift(Tokens(s)[0]));
    }
  }

  /** The text comes back unchanged exactly when no underscore is rewritten. */
  lemma {:induction false} EscapeUnchangedIff(s: string, counter: int)
    ensures Escape(s, counter) == s <==> RewriteCount(Tokens(s), counter) == 0
    decreases |s|
  {
    EscapeLength(s, counter);
    if s != [] && RewriteCount(Tokens(s), counter) == 0 {
      EscapeStep(s, counter);
      TokenSplit(s);
      EscapeUnchangedIff(TokenRest(s), counter + Shift(Tokens(s)[0]));
    }
  }

  /** Text without an underscore is never changed, whatever the counter. */
  lemma {:induction false} EscapeWithoutUnderscore(s: string, counter: int)
    requires '_' !in s
    ensures Escape(s, counter) == s
    decreases |s|
  {
    if s == [] {
    } else if s[0] == '\\' && |s| >= 2 {
      assert forall k :: 0 <= k < |s| - 2 ==> s[2..][k] == s[k + 2];
      EscapeWithoutUnderscore(s[2..], counter);
      assert s == s[..2] + s[2..];
    } else if s[0] != '\\' {
      assert forall k :: 0 <= k < |s| - 1 ==> s[1..][k] == s[k + 1];
      EscapeWithoutUnderscore(s[1..], Escape1Counter(s[0], counter));
      assert s == [s[0]] + s[1..];
    }
  }

  /** The counter after the scan reads one character other than a backslash. */
  function Escape1Counter(c: char, counter: int): int {
    if c == '[' then counter + 1 else if c == ']' then counter - 1 else counter
  }

  /** The bracket balance of text without backslashes. */
  function Balance(s: string): int {
    if s == [] then 0 else Escape1Counter(s[0], 0) + Balance(s[1..])
  }

  /**
    Text without backslashes is scanned one character at a time, so the scan
    of a concatenation is the scan of the first part followed by the scan of
    the second, started from the counter the first part left.
  */
  lemma {:induction false} EscapeAppend(a: string, b: string, counter: int)
    requires '\\' !in a
    ensures Escape(a + b, counter) == Escape(a, counter) + Escape(b, counter + Balance(a))
    decreases |a|
  {
    if a == [] {
      assert a + b == b;
    } else {
      var c := a[0];
      var c' := Escape1Counter(c, counter);
      assert c in a;
      assert (a + b)[0] == c && (a + b)[1..] == a[1..] + b;
      assert '\\' !in a[1..] by {
        assert forall k :: 0 <= k < |a| - 1 ==> a[1..][k] == a[k + 1];
      }
      var rest := a[1..];
      var e := Escape(b, c' + Balance(rest));
      assert c' + Balance(rest) == counter + Balance(a);
      EscapeAppend(rest, b, c');
      EscapePlainStep(a + b, counter, c, rest + b, c');
      EscapePlainStep(a, counter, c, rest, c');
      AppendAssoc(Piece([c], counter), Escape(rest, c'), e);
    }
  }

  /** One character `c` other than a backslash is scanned on its own. */
  lemma EscapePlainStep(s: string, counter: int, c: char, rest: string, next: int)
    requires s != [] && s[0] == c && c != '\\' && rest == s[1..] && next == Escape1Counter(c, counter)
    ensures Escape(s, counter) == Piece([c], counter) + Escape(rest, next)
  {
  }

  /**
    When a final backslash is a token of its own, the first token of the
    text is unchanged by it, and the rest of the text keeps that shape.
  */
  lemma TokensBeforeBackslash(a: string)
    requires a != [] && Tokens(a + "\\") == Tokens(a) + ["\\"]
    ensures Tokens(a + "\\")[0] == Tokens(a)[0]
    ensures TokenRest(a + "\\") == TokenRest(a) + "\\"
    ensures Tokens(TokenRest(a) + "\\") == Tokens(TokenRest(a)) + ["\\"]
  {
    var k := if a[0] == '\\' && |a| >= 2 then 2 else 1;
    if a[0] == '\\' && |a| < 2 {
      assert false;
    }
    FirstTokenBeforeBackslash(a, k);
    ConsInjective(a[..k], a[..k], Tokens(a[k..] + "\\"), Tokens(a[k..]) + ["\\"]);
  }

  /** The first token of a text is the same with a backslash appended. */
  lemma FirstTokenBeforeBackslash(a: string, k: nat)
    requires a != [] && (a[0] != '\\' || |a| >= 2)
    requires k == if a[0] == '\\' && |a| >= 2 then 2 else 1
    ensures k <= |a| && TokenRest(a) == a[k..] && TokenRest(a + "\\") == a[k..] + "\\"
    ensures Tokens(a) == [a[..k]] + Tokens(a[k..])
    ensures Tokens(a + "\\") == [a[..k]] + Tokens(a[k..] + "\\")
    ensures Tokens(a) + ["\\"] == [a[..k]] + (Tokens(a[k..]) + ["\\"])
  {
    var s := a + "\\";
    TokensCons(a, k);
    TokensCons(s, k);
    SplitAppend(a, "\\", k);
    AppendAssoc([a[..k]], Tokens(a[k..]), ["\\"]);
  }

  /** Cutting an extended sequence inside its first part. */
  lemma SplitAppend<T>(a: seq<T>, b: seq<T>, k: nat)
    requires k <= |a|
    ensures (a + b)[..k] == a[..k] && (a + b)[k..] == a[k..] + b
  {
  }

  /** A text is its first token followed by the tokens of the rest. */
  lemma TokensCons(x: string, k: nat)
    requires x != [] && k == if x[0] == '\\' && |x| >= 2 then 2 else 1
    ensures k <= |x| && TokenRest(x) == x[k..]
    ensures Tokens(x) == [x[..k]] + Tokens(x[k..])
  {
  }

  /** A sequence with a first element determines that element and the rest. */
  lemma ConsInjective<T>(x: T, y: T, xs: seq<T>, ys: seq<T>)
    requires [x] + xs == [y] + ys
    ensures x == y && xs == ys
  {
    assert xs == ([x] + xs)[1..];
    assert ys == ([y] + ys)[1..];
  }

  /**
    A lone backslash at the end is copied alone: whenever the text before it
    does not end in an unpaired backslash (so the last backslash is a token
    of its own), the escaped text gains exactly that backslash.
  */
  lemma {:induction false} TrailingBackslash(a: string, counter: int)
    requires Tokens(a + "\\") == Tokens(a) + ["\\"]
    ensures Escape(a + "\\", counter) == Escape(a, counter) + "\\"
    decreases |a|
  {
    if a == [] {
      assert a + "\\" == "\\";
    } else {
      var s := a + "\\";
      TokensBeforeBackslash(a);
      TokenSplit(a);
      var t := Tokens(a)[0];
      var rest := TokenRest(a);
      var c2 := counter + Shift(t);
      EscapeStepAt(s, counter, t, rest + "\\", c2);
      EscapeStepAt(a, counter, t, rest, c2);
      TrailingBackslash(rest, c2);
      AppendAssoc(Piece(t, counter), Escape(rest, c2), "\\");
    }
  }

  /** EscapeStep, with the first token, the rest and the next counter named by the caller. */
  lemma EscapeStepAt(s: string, counter: int, t: string, rest: string, next: int)
    requires s != [] && t == Tokens(s)[0] && rest == TokenRest(s) && next == counter + Shift(t)
    ensures Escape(s, counter) == Piece(t, counter) + Escape(rest, next)
  {
    EscapeStep(s, counter);
  }

  /** In particular, a lone trailing backslash after text without backslashes. */
  lemma {:induction false} TrailingBackslashPlain(a: string)
    requires '\\' !in a
    ensures Tokens(a + "\\") == Tokens(a) + ["\\"]
    decreases |a|
  {
    if a != [] {
      assert a[0] in a;
      assert (a + "\\")[..1] == a[..1];
      assert (a + "\\")[1..] == a[1..] + "\\";
      assert '\\' !in a[1..] by {
        assert forall k :: 0 <= k < |a| - 1 ==> a[1..][k] == a[k + 1];
      }
      TrailingBackslashPlain(a[1..]);
      assert Tokens(a + "\\") == [a[..1]] + (Tokens(a[1..]) + ["\\"]);
      assert Tokens(a) == [a[..1]] + Tokens(a[1..]);
    } else {
      assert a + "\\" == "\\" && "\\"[..1] == "\\" && "\\"[1..] == [];
    }
  }

  /**
    Quickbook markup such as `[include get_point.qbk]` keeps its underscores
    and the counter is back at zero after it.
  */
  lemma MarkupKept(t: string, u: string)
    requires '[' !in t && ']' !in t && '\\' !in t
    ensures Escape("[" + t + "]" + u, 0) == "[" + t + "]" + Escape(u, 0)
  {
    var close := "]" + u;
    var x := t + close;
    assert "[" + t + "]" + u == "[" + x;
    var e := Escape(u, 0);
    BracketFirst('[', x, 0, 1);
    EscapeAppend(t, close, 1);
    BalanceNoBrackets(t);
    EscapeAtDepth(t, 1);
    BracketFirst(']', u, 1, 0);
    assert Escape(x, 1) == t + ("]" + e);
    AppendAssoc(t, "]", e);
    Append3("[", t, "]", e);
  }

  /** A leading bracket is copied and moves the counter. */
  lemma BracketFirst(c: char, x: string, counter: int, nextCounter: int)
    requires c == '[' || c == ']'
    requires nextCounter == Escape1Counter(c, counter)
    ensures Escape([c] + x, counter) == [c] + Escape(x, nextCounter)
  {
    assert ([c] + x)[1..] == x;
  }

  lemma {:induction false} BalanceAppend(a: string, b: string)
    ensures Balance(a + b) == Balance(a) + Balance(b)
    decreases |a|
  {
    if a == [] {
      assert a + b == b;
    } else {
      assert (a + b)[0] == a[0] && (a + b)[1..] == a[1..] + b;
      BalanceAppend(a[1..], b);
    }
  }

  lemma {:induction false} BalanceNoBrackets(t: string)
    requires '[' !in t && ']' !in t
    ensures Balance(t) == 0
    decreases |t|
  {
    if t != [] {
      assert forall k :: 0 <= k < |t| - 1 ==> t[1..][k] == t[k + 1];
      BalanceNoBrackets(t[1..]);
    }
  }

  /** Away from depth zero, bracket- and backslash-free text is copied verbatim. */
  lemma {:induction false} EscapeAtDepth(t: string, counter: int)
    requires counter != 0 && '[' !in t && ']' !in t && '\\' !in t
    ensures Escape(t, counter) == t
    decreases |t|
  {
    if t != [] {
      assert forall k :: 0 <= k < |t| - 1 ==> t[1..][k] == t[k + 1];
      EscapeAtDepth(t[1..], counter);
      assert t == [t[0]] + t[1..];
    }
  }

  /**
    Outside markup and without backslashes, qbk_escaped is a plain replacement
    of every underscore (boost::replace_all_copy of "_" by the escape).
  */
  lemma {:induction false} EscapeTopLevel(s: string)
    requires '[' !in s && ']' !in s && '\\' !in s
    ensures Escape(s, 0) == ReplaceAll(s, "_", UnicodeUnderscore)
    decreases |s|
  {
    if s != [] {
      assert forall k :: 0 <= k < |s| - 1 ==> s[1..][k] == s[k + 1];
      assert s[..1] == "_" <==> s[0] == '_';
      EscapeTopLevel(s[1..]);
    }
  }
}
