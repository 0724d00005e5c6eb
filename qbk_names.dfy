/**
  The small name rewriters of quickbook_output.hpp: section names
  (to_section_name), bracket escaping (replace_brackets), namespace
  stripping (namespace_skipped), output_if_different, and the splitting of a
  qualified name into index terms (quickbook_output_indexterm).
*/
module QbkNames {
  import opened BoostString

  // ---------------------------------------------------------------------------
  // to_section_name
  // ---------------------------------------------------------------------------

  /** to_section_name: every `::` becomes `_`, then the name is lower-cased. */
  function ToSectionName(name: string): (r: string)
    ensures forall i :: 0 <= i < |r| ==> !IsUpper(r[i])
  {
    ToLower(ReplaceAll(name, "::", "_"))
  }

  /** No two neighbouring colons. */
  predicate NoColonPair(s: string) {
    forall k :: 0 <= k < |s| - 1 ==> !(s[k] == ':' && s[k + 1] == ':')
  }

  /** Text that does not start with a colon is rewritten into text that does not either. */
  lemma ColonFreeStart(s: string)
    requires s == [] || s[0] != ':'
    ensures var r := ReplaceAll(s, "::", "_"); r == [] || r[0] != ':'
  {
    if |s| >= 2 {
      assert s[..2] != "::";
    }
  }

  /** After `::` has become `_`, no `::` is left: a copied colon is never followed by another. */
  lemma {:induction false} NoColonPairAfterReplace(s: string)
    ensures NoColonPair(ReplaceAll(s, "::", "_"))
    decreases |s|
  {
    var r := ReplaceAll(s, "::", "_");
    if |s| < 2 {
      assert r == s;
    } else if s[..2] == "::" {
      NoColonPairAfterReplace(s[2..]);
      var t := ReplaceAll(s[2..], "::", "_");
      assert r == "_" + t;
      forall k | 0 <= k < |r| - 1
        ensures !(r[k] == ':' && r[k + 1] == ':')
      {
        if k > 0 {
          assert r[k] == t[k - 1] && r[k + 1] == t[k];
        }
      }
    } else {
      NoColonPairAfterReplace(s[1..]);
      var t := ReplaceAll(s[1..], "::", "_");
      assert r == [s[0]] + t;
      if s[0] == ':' {
        assert s[1] != ':' by {
          assert s[..2] == [s[0], s[1]];
        }
        ColonFreeStart(s[1..]);
      }
      forall k | 0 <= k < |r| - 1
        ensures !(r[k] == ':' && r[k + 1] == ':')
      {
        if k > 0 {
          assert r[k] == t[k - 1] && r[k + 1] == t[k];
        } else {
          assert r[1] == t[0];
        }
      }
    }
  }

  /** Lower-casing leaves colons where they are and makes none. */
  lemma ToLowerNoColonPair(u: string)
    requires NoColonPair(u)
    ensures NoColonPair(ToLower(u))
  {
    var r := ToLower(u);
    forall k | 0 <= k < |r| && r[k] == ':'
      ensures u[k] == ':'
    {
    }
  }

  /** Text without two neighbouring colons does not contain `::`. */
  lemma NoColonPairNoScope(r: string)
    requires NoColonPair(r)
    ensures !Contains(r, "::")
  {
    forall k | 0 <= k <= |r| - 2
      ensures !OccursAt(r, "::", k)
    {
      if OccursAt(r, "::", k) {
        assert r[k] == ':' && r[k + 1] == ':' by {
          assert r[k..k + 2] == "::";
        }
        assert false;
      }
    }
  }

  /** A section name never contains `::`: it is used as a file name. */
  lemma SectionNameHasNoScope(name: string)
    ensures !Contains(ToSectionName(name), "::")
  {
    NoColonPairAfterReplace(name);
    ToLowerNoColonPair(ReplaceAll(name, "::", "_"));
    NoColonPairNoScope(ToSectionName(name));
  }

  /**
    A qualified name `a::b::c` whose parts hold no colon becomes the parts
    joined by `_`, lower-cased: every `::` turns into exactly one `_`.
  */
  lemma SectionNameOfQualified(parts: seq<string>)
    requires forall p <- parts :: ':' !in p
    ensures ToSectionName(Join(parts, "::")) == ToLower(Join(parts, "_"))
  {
    ReplaceAllJoin(parts, "::", "_");
  }

  // ---------------------------------------------------------------------------
  // replace_brackets
  // ---------------------------------------------------------------------------

  predicate IsBracket(c: char) {
    c == '[' || c == ']'
  }

  /** The number of square brackets in `s`. */
  function BracketCount(s: string): nat {
    if s == [] then 0 else (if IsBracket(s[0]) then 1 else 0) + BracketCount(s[1..])
  }

  /**
    The intended escaping, one character at a time: a backslash in front of
    every square bracket, everything else copied in order. In the result every
    bracket is escaped.
  */
  function BracketEscaped(s: string): (r: string)
    ensures |r| == |s| + BracketCount(s)
    ensures forall k :: 0 <= k < |r| && IsBracket(r[k]) ==> 0 < k && r[k - 1] == '\\'
    ensures r != [] ==> !IsBracket(r[0])
  {
    if s == [] then []
    else if IsBracket(s[0]) then ['\\', s[0]] + BracketEscaped(s[1..])
    else [s[0]] + BracketEscaped(s[1..])
  }

  /** Replacing a one-character pattern in a one-character string. */
  lemma ReplaceAllOneChar(c: char, p: char, rep: string)
    ensures ReplaceAll([c], [p], rep) == if c == p then rep else [c]
  {
    assert [c][..1] == [c] && [c][1..] == [];
    if c != p {
      assert [c] != [p] by {
        assert [c][0] != [p][0];
      }
    }
  }

  /** Both replacements on a single character. */
  lemma ReplaceBracketsChar(c: char)
    ensures ReplaceAll(ReplaceAll([c], "[", "\\["), "]", "\\]") == BracketEscaped([c])
  {
    assert [c][1..] == [];
    ReplaceAllOneChar(c, '[', "\\[");
    if c == '[' {
      assert "\\[" == ['\\'] + ['['];
      ReplaceAllCharAppend(['\\'], ['['], ']', "\\]");
      ReplaceAllOneChar('\\', ']', "\\]");
      ReplaceAllOneChar('[', ']', "\\]");
    } else {
      ReplaceAllOneChar(c, ']', "\\]");
    }
  }

  /** The two passes of replace_brackets escape exactly the brackets: they agree with BracketEscaped. */
  lemma {:induction false} ReplaceBracketsEscapes(s: string)
    ensures ReplaceAll(ReplaceAll(s, "[", "\\["), "]", "\\]") == BracketEscaped(s)
    decreases |s|
  {
    if s != [] {
      var c, rest := s[0], s[1..];
      assert s == [c] + rest;
      ReplaceAllCharAppend([c], rest, '[', "\\[");
      ReplaceAllCharAppend(ReplaceAll([c], "[", "\\["), ReplaceAll(rest, "[", "\\["), ']', "\\]");
      ReplaceBracketsChar(c);
      ReplaceBracketsEscapes(rest);
      assert BracketEscaped(s) == BracketEscaped([c]) + BracketEscaped(rest) by {
        assert [c][1..] == [];
      }
    }
  }

  /** Undoes the escaping: `\[` and `\]` lose their backslash, everything else is copied. */
  function DropBracketEscapes(t: string): string {
    if |t| >= 2 && t[0] == '\\' && IsBracket(t[1]) then [t[1]] + DropBracketEscapes(t[2..])
    else if t == [] then []
    else [t[0]] + DropBracketEscapes(t[1..])
  }

  /**
    Escaping loses nothing: the original text can be read back, even where it
    already held backslashes (those are never followed by a bare bracket).
  */
  lemma {:induction false} BracketEscapesRoundTrip(s: string)
    ensures DropBracketEscapes(BracketEscaped(s)) == s
    decreases |s|
  {
    if s != [] {
      var rest := BracketEscaped(s[1..]);
      BracketEscapesRoundTrip(s[1..]);
      if IsBracket(s[0]) {
        assert BracketEscaped(s)[2..] == rest;
      } else {
        assert BracketEscaped(s)[1..] == rest;
      }
    }
  }

  /**
    replace_brackets: `[` becomes `\[`, then `]` becomes `\]`. Every bracket
    gains one backslash, and the original text can be read back.
  */
  function ReplaceBrackets(s: string): (r: string)
    ensures |r| == |s| + BracketCount(s)
    ensures DropBracketEscapes(r) == s
  {
    ReplaceBracketsEscapes(s);
    BracketEscapesRoundTrip(s);
    ReplaceAll(ReplaceAll(s, "[", "\\["), "]", "\\]")
  }

  // ---------------------------------------------------------------------------
  // namespace_skipped and output_if_different
  // ---------------------------------------------------------------------------

  /** namespace_skipped: every occurrence of the configured namespace is removed; the name never grows. */
  function NamespaceSkipped(name: string, skipNamespace: string): (r: string)
    ensures |r| <= |name|
  {
    if skipNamespace == [] then name else ReplaceAll(name, skipNamespace, "")
  }

  /** A name that starts with the skipped namespace, and holds it nowhere else, loses that prefix. */
  lemma NamespaceSkippedPrefix(skipNamespace: string, rest: string)
    requires skipNamespace != [] && !Contains(rest, skipNamespace)
    ensures NamespaceSkipped(skipNamespace + rest, skipNamespace) == rest
  {
    ReplaceAllAtFront(rest, skipNamespace, "");
    ReplaceAllAbsent(rest, skipNamespace, "");
  }

  /** A name outside the skipped namespace comes back unchanged. */
  lemma NamespaceSkippedAbsent(name: string, skipNamespace: string)
    requires skipNamespace == [] || !Contains(name, skipNamespace)
    ensures NamespaceSkipped(name, skipNamespace) == name
  {
    if skipNamespace != [] {
      ReplaceAllAbsent(name, skipNamespace, "");
    }
  }

  /** output_if_different: nothing when both are equal, else the first followed by a space. */
  function OutputIfDifferent(s: string, s2: string): (r: string)
    ensures r == [] <==> s == s2
    ensures s != s2 ==> r == s + " "
  {
    if s == s2 then [] else s + " "
  }

  // ---------------------------------------------------------------------------
  // Index terms
  // ---------------------------------------------------------------------------

  /**
    The terms quickbook_output_indexterm indexes a name under: a name with
    `::` is split into its namespaces and its own name (every `::` is first
    replaced by `:`, then the text is split at runs of `:`); any other name is
    one term.
  */
  function IndextermParts(term: string): (r: seq<string>)
    ensures |r| >= 1
    ensures Contains(term, "::") ==> forall p <- r :: ':' !in p
    ensures !Contains(term, "::") ==> r == [term]
  {
    if Contains(term, "::") then SplitCompress(ReplaceAll(term, "::", ":"), ':') else [term]
  }

  /** A qualified name is indexed under each of its parts, in order. */
  lemma IndextermPartsOfQualified(parts: seq<string>)
    requires |parts| >= 2
    requires forall p <- parts :: p != [] && ':' !in p
    ensures IndextermParts(Join(parts, "::")) == parts
  {
    var name := Join(parts, "::");
    assert Contains(name, "::") by {
      var rest := Join(parts[1..], "::");
      assert name == parts[0] + "::" + rest;
      assert name[|parts[0]|..|parts[0]| + 2] == "::";
      assert OccursAt(name, "::", |parts[0]|);
    }
    assert forall p <- parts :: "::"[0] !in p;
    ReplaceAllJoin(parts, "::", ":");
    SplitCompressJoin(parts, ':');
  }
}
