/**
  The string primitives that quickbook_output.hpp takes from the C++ standard
  library and from Boost.StringAlgo, written out as functions over `string`:
  std::string::find and substr, boost::replace_all_copy, boost::to_lower_copy,
  boost::trim_copy, boost::contains, boost::split with token_compress_on, and
  the decimal rendering `std::ostream << size_t` performs.
  Locale-dependent behaviour is fixed to the "C" locale (ASCII only).
*/
module BoostString {

  // ---------------------------------------------------------------------------
  // Characters
  // ---------------------------------------------------------------------------

  /** std::isspace in the "C" locale: space, \t, \n, \v, \f and \r. */
  predicate IsSpace(c: char) {
    c == ' ' || 9 <= c as int <= 13
  }

  predicate IsUpper(c: char) {
    'A' <= c <= 'Z'
  }

  /** std::tolower in the "C" locale. */
  function ToLowerChar(c: char): char {
    if IsUpper(c) then (c as int + 32) as char else c
  }

  /** boost::to_lower_copy: every ASCII capital becomes its small letter, nothing else changes. */
  function ToLower(s: string): (r: string)
    ensures |r| == |s|
    ensures forall i :: 0 <= i < |s| && IsUpper(s[i]) ==> r[i] as int == s[i] as int + 32
    ensures forall i :: 0 <= i < |s| && !IsUpper(s[i]) ==> r[i] == s[i]
    ensures forall i :: 0 <= i < |r| ==> !IsUpper(r[i])
  {
    if s == [] then [] else [ToLowerChar(s[0])] + ToLower(s[1..])
  }

  // ---------------------------------------------------------------------------
  // Searching
  // ---------------------------------------------------------------------------

  /** `pat` occurs in `s` starting at index `k`. */
  predicate OccursAt(s: string, pat: string, k: int) {
    0 <= k && k + |pat| <= |s| && s[k..k + |pat|] == pat
  }

  /** boost::contains. */
  predicate Contains(s: string, pat: string) {
    exists k :: 0 <= k <= |s| - |pat| && OccursAt(s, pat, k)
  }

  /**
    std::string::find(c, from). The C++ call returns npos when there is no such
    character; here that is the value |s|, which compares greater than every
    index that can be found, so `<` and `==` between two results keep their
    meaning.
  */
  function Find(s: string, c: char, from: nat): (r: nat)
    ensures r <= |s|
    ensures from <= |s| ==> from <= r
    ensures r < |s| ==> s[r] == c
    decreases |s| - from
  {
    if from >= |s| then |s|
    else if s[from] == c then from
    else Find(s, c, from + 1)
  }

  /** Find returns the FIRST occurrence at or after `from`: nothing before it matches. */
  lemma {:induction false} FindFirst(s: string, c: char, from: nat)
    ensures forall k :: from <= k < Find(s, c, from) ==> s[k] != c
    decreases |s| - from
  {
    if from < |s| && s[from] != c {
      FindFirst(s, c, from + 1);
    }
  }

  /**
    std::string::substr(pos, count): at most `count` characters from `pos`.
    A count of npos (here anything >= |s|) takes the rest of the string. The
    C++ call throws when pos > size(); callers here never pass such a pos.
  */
  function Substr(s: string, pos: nat, count: nat): (r: string)
    requires pos <= |s|
    ensures |r| <= count && |r| <= |s| - pos
    ensures r == s[pos..pos + |r|]
    ensures |r| == count || pos + |r| == |s|
  {
    if pos + count <= |s| then s[pos..pos + count] else s[pos..]
  }

  // ---------------------------------------------------------------------------
  // boost::replace_all_copy
  // ---------------------------------------------------------------------------

  /**
    boost::replace_all_copy(s, pat, rep): scan left to right, replace each
    occurrence of `pat` by `rep` and continue after it, so occurrences never
    overlap. Callers never search for the empty string.
  */
  function ReplaceAll(s: string, pat: string, rep: string): (r: string)
    requires pat != []
    ensures rep == pat ==> r == s
    ensures |rep| <= |pat| ==> |r| <= |s|
    decreases |s|
  {
    if |s| < |pat| then s
    else if s[..|pat|] == pat then
      assert s == s[..|pat|] + s[|pat|..];
      rep + ReplaceAll(s[|pat|..], pat, rep)
    else
      assert s == [s[0]] + s[1..];
      [s[0]] + ReplaceAll(s[1..], pat, rep)
  }

  /** A string without an occurrence of the pattern comes back unchanged. */
  lemma {:induction false} ReplaceAllAbsent(s: string, pat: string, rep: string)
    requires pat != [] && !Contains(s, pat)
    ensures ReplaceAll(s, pat, rep) == s
    decreases |s|
  {
    if |s| >= |pat| {
      assert !OccursAt(s, pat, 0);
      assert !Contains(s[1..], pat) by {
        forall k | OccursAt(s[1..], pat, k) ensures OccursAt(s, pat, k + 1) {
          assert s[k + 1..k + 1 + |pat|] == s[1..][k..k + |pat|];
        }
      }
      ReplaceAllAbsent(s[1..], pat, rep);
    }
  }

  /** A character that cannot start an occurrence is copied and the scan moves on. */
  lemma ReplaceAllCopiesFirst(s: string, pat: string, rep: string)
    requires pat != [] && s != [] && s[0] != pat[0]
    ensures ReplaceAll(s, pat, rep) == [s[0]] + ReplaceAll(s[1..], pat, rep)
  {
    if |s| >= |pat| {
      assert s[..|pat|][0] != pat[0];
    } else {
      assert s == [s[0]] + s[1..];
    }
  }

  /** Text that cannot start an occurrence is copied through unchanged. */
  lemma {:induction false} ReplaceAllSkipsPrefix(p: string, y: string, pat: string, rep: string)
    requires pat != [] && pat[0] !in p
    ensures ReplaceAll(p + y, pat, rep) == p + ReplaceAll(y, pat, rep)
    decreases |p|
  {
    if p == [] {
      assert p + y == y;
    } else {
      assert (p + y)[0] == p[0] && (p + y)[1..] == p[1..] + y;
      ReplaceAllCopiesFirst(p + y, pat, rep);
      ReplaceAllSkipsPrefix(p[1..], y, pat, rep);
      assert [p[0]] + (p[1..] + ReplaceAll(y, pat, rep)) == p + ReplaceAll(y, pat, rep);
    }
  }

  /** An occurrence at the front is replaced and the scan resumes after it. */
  lemma ReplaceAllAtFront(y: string, pat: string, rep: string)
    requires pat != []
    ensures ReplaceAll(pat + y, pat, rep) == rep + ReplaceAll(y, pat, rep)
  {
    assert (pat + y)[..|pat|] == pat;
    assert (pat + y)[|pat|..] == y;
  }

  /** For a one-character pattern the replacement works character by character. */
  lemma {:induction false} ReplaceAllCharAppend(a: string, b: string, c: char, rep: string)
    ensures ReplaceAll(a + b, [c], rep) == ReplaceAll(a, [c], rep) + ReplaceAll(b, [c], rep)
    decreases |a|
  {
    if a == [] {
      assert a + b == b;
    } else {
      assert (a + b)[..1] == a[..1];
      assert (a + b)[1..] == a[1..] + b;
      ReplaceAllCharAppend(a[1..], b, c, rep);
    }
  }

  // ---------------------------------------------------------------------------
  // Joining and splitting
  // ---------------------------------------------------------------------------

  /** The parts with `sep` between neighbours (boost::join). */
  function Join(parts: seq<string>, sep: string): string
  {
    if |parts| == 0 then []
    else if |parts| == 1 then parts[0]
    else parts[0] + sep + Join(parts[1..], sep)
  }

  /** Joining one more part adds one separator and the part at the end. */
  lemma {:induction false} JoinSnoc(parts: seq<string>, x: string, sep: string)
    requires parts != []
    ensures Join(parts + [x], sep) == Join(parts, sep) + sep + x
    decreases |parts|
  {
    if |parts| == 1 {
      assert (parts + [x])[1..] == [x];
    } else {
      assert (parts + [x])[1..] == parts[1..] + [x];
      JoinSnoc(parts[1..], x, sep);
    }
  }

  /**
    Replacing a separator that no part can start turns a join with that
    separator into a join with the replacement: every separator becomes
    exactly one replacement, nothing else changes.
  */
  lemma {:induction false} ReplaceAllJoin(parts: seq<string>, pat: string, rep: string)
    requires pat != []
    requires forall p <- parts :: pat[0] !in p
    ensures ReplaceAll(Join(parts, pat), pat, rep) == Join(parts, rep)
    decreases |parts|
  {
    if |parts| == 0 {
    } else if |parts| == 1 {
      ReplaceAllSkipsPrefix(parts[0], [], pat, rep);
      assert parts[0] + [] == parts[0];
    } else {
      var rest := Join(parts[1..], pat);
      assert Join(parts, pat) == parts[0] + (pat + rest);
      ReplaceAllSkipsPrefix(parts[0], pat + rest, pat, rep);
      ReplaceAllAtFront(rest, pat, rep);
      ReplaceAllJoin(parts[1..], pat, rep);
    }
  }

  /** Drops the run of separators at the front of `s`. */
  function DropSeparators(s: string, sep: char): (r: string)
    ensures |r| <= |s| && r == s[|s| - |r|..]
    ensures r == [] || r[0] != sep
  {
    if s != [] && s[0] == sep then DropSeparators(s[1..], sep) else s
  }

  /**
    boost::split(result, s, is_any_of(sep), token_compress_on): the pieces
    between maximal runs of separators. A separator at either end yields an
    empty first or last piece; there is always at least one piece.
  */
  function SplitCompress(s: string, sep: char): (r: seq<string>)
    ensures |r| >= 1
    ensures forall t <- r :: sep !in t
    decreases |s|
  {
    if s == [] then [[]]
    else if s[0] == sep then [[]] + SplitCompress(DropSeparators(s[1..], sep), sep)
    else
      var rest := SplitCompress(s[1..], sep);
      [[s[0]] + rest[0]] + rest[1..]
  }

  /** A separator-free prefix is glued to the first piece. */
  lemma {:induction false} SplitCompressPrefix(p: string, z: string, sep: char)
    requires sep !in p
    ensures SplitCompress(p + z, sep) == [p + SplitCompress(z, sep)[0]] + SplitCompress(z, sep)[1..]
    decreases |p|
  {
    if p == [] {
      var zs := SplitCompress(z, sep);
      assert p + z == z && p + zs[0] == zs[0];
      assert [zs[0]] + zs[1..] == zs;
    } else {
      assert p[0] in p;
      assert (p + z)[0] == p[0];
      assert (p + z)[1..] == p[1..] + z;
      SplitCompressPrefix(p[1..], z, sep);
      var rest := SplitCompress(p[1..] + z, sep);
      var zs := SplitCompress(z, sep);
      assert rest == [p[1..] + zs[0]] + zs[1..];
      assert SplitCompress(p + z, sep) == [[p[0]] + rest[0]] + rest[1..];
      assert [p[0]] + (p[1..] + zs[0]) == p + zs[0];
    }
  }

  /**
    Splitting undoes joining, as long as the parts are non-empty and free of
    the separator.
  */
  lemma {:induction false} SplitCompressJoin(parts: seq<string>, sep: char)
    requires parts != []
    requires forall p <- parts :: p != [] && sep !in p
    ensures SplitCompress(Join(parts, [sep]), sep) == parts
    decreases |parts|
  {
    assert parts[0] in parts;
    if |parts| == 1 {
      SplitCompressPrefix(parts[0], [], sep);
      assert parts[0] + [] == parts[0];
    } else {
      var rest := Join(parts[1..], [sep]);
      assert forall q <- parts[1..] :: q in parts;
      SplitCompressJoin(parts[1..], sep);
      SplitAfterSeparator(parts[1..], sep);
      JoinCons(parts, [sep]);
      SplitCompressPrefix(parts[0], [sep] + rest, sep);
      assert parts[0] + [] == parts[0];
      assert [parts[0]] + parts[1..] == parts;
    }
  }

  /** A join with more than one part is the first part, a separator and the join of the rest. */
  lemma JoinCons(parts: seq<string>, sep: string)
    requires |parts| >= 2
    ensures Join(parts, sep) == parts[0] + (sep + Join(parts[1..], sep))
  {
  }

  /** One separator in front of a join of non-empty parts starts an empty piece and nothing more. */
  lemma SplitAfterSeparator(parts: seq<string>, sep: char)
    requires parts != []
    requires forall p <- parts :: p != [] && sep !in p
    ensures SplitCompress([sep] + Join(parts, [sep]), sep) == [[]] + SplitCompress(Join(parts, [sep]), sep)
  {
    var rest := Join(parts, [sep]);
    assert parts[0] in parts;
    JoinHead(parts, [sep]);
    assert ([sep] + rest)[1..] == rest;
  }

  /** A join starts with its first part. */
  lemma JoinHead(parts: seq<string>, sep: string)
    requires parts != [] && parts[0] != []
    ensures Join(parts, sep) != [] && Join(parts, sep)[0] == parts[0][0]
  {
  }

  // ---------------------------------------------------------------------------
  // boost::trim_copy
  // ---------------------------------------------------------------------------

  /** Removes leading whitespace. */
  function TrimLeft(s: string): (r: string)
    ensures |r| <= |s| && r == s[|s| - |r|..]
    ensures forall i :: 0 <= i < |s| - |r| ==> IsSpace(s[i])
    ensures r != [] ==> !IsSpace(r[0])
  {
    if s != [] && IsSpace(s[0]) then TrimLeft(s[1..]) else s
  }

  /** Removes trailing whitespace. */
  function TrimRight(s: string): (r: string)
    ensures |r| <= |s| && r == s[..|r|]
    ensures forall i :: |r| <= i < |s| ==> IsSpace(s[i])
    ensures r != [] ==> !IsSpace(r[|r| - 1])
  {
    if s != [] && IsSpace(s[|s| - 1]) then TrimRight(s[..|s| - 1]) else s
  }

  /** boost::trim_copy: whitespace removed from both ends. */
  function Trim(s: string): (r: string)
    ensures |r| <= |s|
    ensures r != [] ==> !IsSpace(r[0]) && !IsSpace(r[|r| - 1])
  {
    var l := TrimLeft(s);
    var t := TrimRight(l);
    assert t != [] ==> t[0] == l[0];
    t
  }

  /**
    The trimmed string is the piece of the input that starts at position
    `i`, where TrimLeft starts; only whitespace is cut before and after it.
  */
  lemma TrimIsInfix(s: string, i: nat)
    requires i == |s| - |TrimLeft(s)|
    ensures i + |Trim(s)| <= |s| && Trim(s) == s[i..i + |Trim(s)|]
    ensures forall k :: 0 <= k < i ==> IsSpace(s[k])
    ensures forall k :: i + |Trim(s)| <= k < |s| ==> IsSpace(s[k])
  {
    var l := TrimLeft(s);
    var t := TrimRight(l);
    assert Trim(s) == t;
    InfixOfSuffix(s, l, t, i);
  }

  /** A prefix `t` of the suffix `l` of `s`, followed in `l` by whitespace only. */
  lemma InfixOfSuffix(s: string, l: string, t: string, i: nat)
    requires i <= |s| && l == s[i..] && |t| <= |l| && t == l[..|t|]
    requires forall k :: |t| <= k < |l| ==> IsSpace(l[k])
    ensures i + |t| <= |s| && t == s[i..i + |t|]
    ensures forall k :: i + |t| <= k < |s| ==> IsSpace(s[k])
  {
    forall k | i + |t| <= k < |s| ensures IsSpace(s[k]) {
      assert s[k] == l[k - i];
    }
  }

  /** Trimming twice is trimming once. */
  lemma TrimIdempotent(s: string)
    ensures Trim(Trim(s)) == Trim(s)
  {
    var t := Trim(s);
    assert TrimLeft(t) == t;
    if t != [] {
      assert TrimRight(t) == t;
    }
  }

  // ---------------------------------------------------------------------------
  // Decimal rendering of an unsigned integer
  // ---------------------------------------------------------------------------

  function DigitChar(d: nat): (c: char)
    requires d < 10
    ensures '0' <= c <= '9' && c as int - '0' as int == d
  {
    (d + '0' as int) as char
  }

  predicate IsDigits(s: string) {
    forall i :: 0 <= i < |s| ==> '0' <= s[i] <= '9'
  }

  /** `out << n` for a std::size_t: decimal digits, no leading zero. */
  function DecimalString(n: nat): (r: string)
    ensures r != [] && IsDigits(r)
    ensures r[0] == '0' ==> n == 0
  {
    if n < 10 then [DigitChar(n)] else DecimalString(n / 10) + [DigitChar(n % 10)]
  }

  /** The value a string of decimal digits denotes. */
  function DecimalValue(s: string): nat
    requires IsDigits(s)
  {
    if s == [] then 0
    else DecimalValue(s[..|s| - 1]) * 10 + (s[|s| - 1] as int - '0' as int)
  }

  /** Reading back the rendered digits gives the number. */
  lemma {:induction false} DecimalRoundTrip(n: nat)
    ensures DecimalValue(DecimalString(n)) == n
  {
    if n >= 10 {
      var s := DecimalString(n);
      assert s[..|s| - 1] == DecimalString(n / 10);
      DecimalRoundTrip(n / 10);
    }
  }
}
