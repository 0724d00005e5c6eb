/**
  remove_template_parameters (quickbook_output.hpp, lines 642-674): shortens a
  type such as `std::vector<int, A>` to `std::vector<...>` for the short
  synopsis. The loop jumps from one angle bracket to the next with
  std::string::find, counts open blocks, and copies text before each
  outermost `<` with `name.substr(prev_i, next_begin)`. That call passes an
  absolute position as a character COUNT; it is kept as written, so the text
  copied before a second top-level block runs past that block's `<`.
*/
module TemplateParameters {
  import opened BoostString

  /** What an outermost template block is replaced by. */
  const Ellipsis: string := "<...>"

  /**
    The loop of remove_template_parameters, from the state (i, prev_i,
    blocks_counter, res) on; the result is what it returns.
  */
  function Run(name: string, i: nat, prevI: nat, blocks: int, res: string): string
    requires i <= |name| && prevI <= |name|
    decreases |name| - i
  {
    var nextBegin := Find(name, '<', i);
    var nextEnd := Find(name, '>', i);
    if nextBegin == nextEnd then
      res + Substr(name, prevI, nextBegin)
    else if nextBegin < nextEnd then
      Run(name, nextBegin + 1, prevI, blocks + 1,
          if blocks == 0 then res + Substr(name, prevI, nextBegin) + Ellipsis else res)
    else
      Run(name, nextEnd + 1, if blocks - 1 == 0 then nextEnd + 1 else prevI, blocks - 1, res)
  }

  /** The result of remove_template_parameters(name). */
  function Removed(name: string): string {
    Run(name, 0, 0, 0, [])
  }

  /** remove_template_parameters: the `for (;;)` loop; every pass moves i past one angle bracket. */
  method RemoveTemplateParameters(name: string) returns (res: string)
    ensures res == Removed(name)
  {
    res := [];
    var prevI: nat, i: nat := 0, 0;
    var blocksCounter := 0;
    while true
      invariant i <= |name| && prevI <= |name|
      invariant Run(name, i, prevI, blocksCounter, res) == Removed(name)
      decreases |name| - i
    {
      ghost var i0, prevI0, blocks0, res0 := i, prevI, blocksCounter, res;
      var nextBegin := Find(name, '<', i);
      var nextEnd := Find(name, '>', i);
      if nextBegin == nextEnd {
        res := res + Substr(name, prevI, nextBegin);
        break;
      } else if nextBegin < nextEnd {
        i := nextBegin + 1;
        if blocksCounter == 0 {
          res := res + Substr(name, prevI, nextBegin) + Ellipsis;
        }
        blocksCounter := blocksCounter + 1;
        PassOpen(name, i0, prevI, blocks0, res0, nextBegin, nextEnd, i, blocksCounter, res);
      } else {
        i := nextEnd + 1;
        blocksCounter := blocksCounter - 1;
        if blocksCounter == 0 {
          prevI := i;
        }
        PassClose(name, i0, prevI0, blocks0, res, nextBegin, nextEnd, i, prevI, blocksCounter);
      }
    }
  }

  /** A pass of the loop that meets a `<` first. */
  lemma PassOpen(name: string, i: nat, prevI: nat, blocks: int, res: string, nextBegin: nat, nextEnd: nat,
                 i': nat, blocks': int, res': string)
    requires i <= |name| && prevI <= |name|
    requires nextBegin == Find(name, '<', i) && nextEnd == Find(name, '>', i) && nextBegin < nextEnd
    requires i' == nextBegin + 1 && blocks' == blocks + 1
    requires res' == if blocks == 0 then res + Substr(name, prevI, nextBegin) + Ellipsis else res
    ensures i' <= |name| && Run(name, i, prevI, blocks, res) == Run(name, i', prevI, blocks', res')
  {
  }

  /** A pass of the loop that meets a `>` first. */
  lemma PassClose(name: string, i: nat, prevI: nat, blocks: int, res: string, nextBegin: nat, nextEnd: nat,
                  i': nat, prevI': nat, blocks': int)
    requires i <= |name| && prevI <= |name|
    requires nextBegin == Find(name, '<', i) && nextEnd == Find(name, '>', i) && nextEnd < nextBegin
    requires i' == nextEnd + 1 && blocks' == blocks - 1
    requires prevI' == if blocks' == 0 then i' else prevI
    ensures i' <= |name| && prevI' <= |name|
    ensures Run(name, i, prevI, blocks, res) == Run(name, i', prevI', blocks', res)
  {
  }

  // ---------------------------------------------------------------------------
  // Angle-bracket depth
  // ---------------------------------------------------------------------------

  predicate IsAngle(c: char) {
    c == '<' || c == '>'
  }

  predicate AngleFree(s: string) {
    forall k :: 0 <= k < |s| ==> !IsAngle(s[k])
  }

  function AngleShift(c: char): int {
    if c == '<' then 1 else if c == '>' then -1 else 0
  }

  /** Opened minus closed angle brackets. */
  function AngleDepth(s: string): int {
    if s == [] then 0 else AngleDepth(s[..|s| - 1]) + AngleShift(s[|s| - 1])
  }

  /** The first k characters close no more blocks than they open. */
  predicate PrefixOpen(b: string, k: nat)
    requires k <= |b|
  {
    AngleDepth(b[..k]) >= 0
  }

  /** Every prefix closes no more blocks than it opened, and the whole closes them all. */
  predicate Balanced(b: string) {
    AngleDepth(b) == 0 && forall k :: 0 <= k <= |b| ==> PrefixOpen(b, k)
  }

  // ---------------------------------------------------------------------------
  // Properties of the loop
  // ---------------------------------------------------------------------------

  // The step lemmas take the next state as parameters, so that their callers
  // name each position once and the solver never has to equate two spellings
  // of the same sum.

  /** Only angle brackets matter: the loop passes over any other character. */
  lemma RunSkip(name: string, i: nat, j: nat, prevI: nat, blocks: int, res: string)
    requires i < |name| && j == i + 1 && prevI <= |name| && !IsAngle(name[i])
    ensures Run(name, i, prevI, blocks, res) == Run(name, j, prevI, blocks, res)
  {
    assert Find(name, '<', i) == Find(name, '<', j);
    assert Find(name, '>', i) == Find(name, '>', j);
  }

  /** At a `<` the loop opens a block; at depth zero it first copies substr(prev_i, i) and `<...>`. */
  lemma RunOpen(name: string, i: nat, j: nat, prevI: nat, blocks: int, nextBlocks: int, res: string, nextRes: string)
    requires i < |name| && j == i + 1 && prevI <= |name| && name[i] == '<'
    requires nextBlocks == blocks + 1
    requires nextRes == if blocks == 0 then res + Substr(name, prevI, i) + Ellipsis else res
    ensures Run(name, i, prevI, blocks, res) == Run(name, j, prevI, nextBlocks, nextRes)
  {
    assert Find(name, '<', i) == i;
    assert Find(name, '>', i) != i;
  }

  /** At a `>` the loop closes a block; when that ends the outermost one, prev_i moves past it. */
  lemma RunClose(name: string, i: nat, j: nat, prevI: nat, nextPrevI: nat, blocks: int, nextBlocks: int, res: string)
    requires i < |name| && j == i + 1 && prevI <= |name| && name[i] == '>'
    requires nextBlocks == blocks - 1 && nextPrevI == if nextBlocks == 0 then j else prevI
    ensures Run(name, i, prevI, blocks, res) == Run(name, j, nextPrevI, nextBlocks, res)
  {
    assert Find(name, '>', i) == i;
    assert Find(name, '<', i) != i;
  }

  lemma {:induction false} RunSkipMany(name: string, i: nat, j: nat, prevI: nat, blocks: int, res: string)
    requires i <= j <= |name| && prevI <= |name| && AngleFree(name[i..j])
    ensures Run(name, i, prevI, blocks, res) == Run(name, j, prevI, blocks, res)
    decreases j - i
  {
    if i < j {
      assert name[i] == name[i..j][0];
      RunSkip(name, i, i + 1, prevI, blocks, res);
      assert name[i + 1..j] == name[i..j][1..];
      RunSkipMany(name, i + 1, j, prevI, blocks, res);
    }
  }

  /** With no angle bracket left, the loop appends the rest of the text from prev_i and stops. */
  lemma RunAtEnd(name: string, i: nat, prevI: nat, blocks: int, res: string)
    requires i <= |name| && prevI <= |name| && AngleFree(name[i..])
    ensures Run(name, i, prevI, blocks, res) == res + name[prevI..]
  {
    RunSkipMany(name, i, |name|, prevI, blocks, res);
  }

  /** One character inside a block: the counter follows the depth of the body read so far. */
  lemma InsideStep(name: string, o: nat, b: string, k: nat, i: nat, j: nat,
                   blocks: int, nextBlocks: int, prevI: nat, res: string)
    requires o + |b| < |name| && name[o..o + |b|] == b
    requires k < |b| && i == o + k && j == i + 1 && prevI <= |name|
    requires blocks >= 1 && nextBlocks == blocks + AngleShift(b[k]) && nextBlocks >= 1
    ensures Run(name, i, prevI, blocks, res) == Run(name, j, prevI, nextBlocks, res)
  {
    assert name[i] == b[k] by {
      assert name[o..o + |b|][k] == name[i];
    }
    if !IsAngle(b[k]) {
      RunSkip(name, i, j, prevI, blocks, res);
    } else if b[k] == '<' {
      RunOpen(name, i, j, prevI, blocks, nextBlocks, res, res);
    } else {
      RunClose(name, i, j, prevI, prevI, blocks, nextBlocks, res);
    }
  }

  /** The depth after one more character. */
  lemma AngleDepthSnoc(b: string, k: nat)
    requires k < |b|
    ensures AngleDepth(b[..k + 1]) == AngleDepth(b[..k]) + AngleShift(b[k])
  {
    assert b[..k + 1][..k] == b[..k];
  }

  /** Inside a balanced body the counter stays at one or more, and is back at one at its end. */
  lemma DepthInside(b: string, k: nat)
    requires Balanced(b) && k <= |b|
    ensures AngleDepth(b[..k]) >= 0
    ensures k == |b| ==> AngleDepth(b[..k]) == 0
    ensures k < |b| ==> 1 + AngleDepth(b[..k]) + AngleShift(b[k]) == 1 + AngleDepth(b[..k + 1]) >= 1
  {
    assert b[..|b|] == b;
    assert PrefixOpen(b, k);
    if k < |b| {
      AngleDepthSnoc(b, k);
      assert PrefixOpen(b, k + 1);
    }
  }

  /** `b` followed by `>` sits in `name` at `o`, and is balanced. */
  predicate BodyAt(name: string, o: nat, b: string) {
    o + |b| < |name| && name[o..o + |b|] == b && name[o + |b|] == '>' && Balanced(b)
  }

  /**
    Inside a block whose body is `b`, the loop keeps the block open (res and
    prev_i unchanged) until the `>` that closes it, and resumes after it with
    prev_i there and the counter back at zero.
  */
  lemma {:induction false} InsideBlock(name: string, o: nat, b: string, k: nat, i: nat, e: nat,
                                       blocks: int, prevI: nat, res: string)
    requires BodyAt(name, o, b) && k <= |b| && i == o + k && e == o + |b| + 1 && prevI <= |name|
    requires blocks == 1 + AngleDepth(b[..k])
    ensures Run(name, i, prevI, blocks, res) == Run(name, e, e, 0, res)
    decreases |b| - k, 1
  {
    DepthInside(b, k);
    if k == |b| {
      RunClose(name, i, e, prevI, e, blocks, 0, res);
    } else {
      InsideAdvance(name, o, b, k, i, e, blocks, blocks + AngleShift(b[k]), prevI, res);
    }
  }

  /** The same, one character before the end of the body: step over it, then go on. */
  lemma {:induction false} InsideAdvance(name: string, o: nat, b: string, k: nat, i: nat, e: nat,
                                         blocks: int, nextBlocks: int, prevI: nat, res: string)
    requires BodyAt(name, o, b) && k < |b| && i == o + k && e == o + |b| + 1 && prevI <= |name|
    requires blocks >= 1 && nextBlocks == blocks + AngleShift(b[k])
    requires nextBlocks == 1 + AngleDepth(b[..k + 1]) >= 1
    ensures Run(name, i, prevI, blocks, res) == Run(name, e, e, 0, res)
    decreases |b| - k, 0
  {
    InsideStep(name, o, b, k, i, i + 1, blocks, nextBlocks, prevI, res);
    InsideBlock(name, o, b, k + 1, i + 1, e, nextBlocks, prevI, res);
  }

  /** Where the pieces of `pre m<body>post` sit. */
  lemma BlockLayout(name: string, pre: string, m: string, body: string, post: string)
    requires name == pre + m + "<" + body + ">" + post
    requires AngleFree(m) && Balanced(body)
    ensures var open := |pre| + |m|;
      && open + |body| + 2 <= |name|
      && AngleFree(name[|pre|..open]) && name[open] == '<'
      && BodyAt(name, open + 1, body)
      && name[open + |body| + 2..] == post
      && AngleDepth(body[..0]) == 0
  {
    var open := |pre| + |m|;
    assert name[|pre|..open] == m;
    assert name[open + 1..open + 1 + |body|] == body;
    assert body[..0] == [];
  }

  /**
    At depth zero, before an angle-free run from `s` to a `<` at `open` that
    starts a balanced block: the loop appends `substr(prev_i, open)` and
    `<...>`, and resumes after the block with prev_i there.
  */
  lemma OneTopLevelBlock(name: string, s: nat, open: nat, body: string, prevI: nat, res: string,
                         f: nat, nextRes: string)
    requires s <= open < |name| && prevI <= s
    requires AngleFree(name[s..open]) && name[open] == '<'
    requires BodyAt(name, open + 1, body) && AngleDepth(body[..0]) == 0
    requires f == open + |body| + 2
    requires nextRes == res + Substr(name, prevI, open) + Ellipsis
    ensures Run(name, s, prevI, 0, res) == Run(name, f, f, 0, nextRes)
  {
    RunSkipMany(name, s, open, prevI, 0, res);
    OpenBlock(name, open, body, prevI, res, f, nextRes);
  }

  /** From the `<` at `open` of a top-level block to just past its `>`. */
  lemma OpenBlock(name: string, open: nat, body: string, prevI: nat, res: string,
                  f: nat, nextRes: string)
    requires open < |name| && prevI <= open && name[open] == '<'
    requires BodyAt(name, open + 1, body) && AngleDepth(body[..0]) == 0
    requires f == open + |body| + 2
    requires nextRes == res + Substr(name, prevI, open) + Ellipsis
    ensures Run(name, open, prevI, 0, res) == Run(name, f, f, 0, nextRes)
  {
    RunOpen(name, open, open + 1, prevI, 0, 1, res, nextRes);
    InsideBlock(name, open + 1, body, 0, open + 1, f, 1, prevI, nextRes);
  }

  /** A name without angle brackets is returned unchanged. */
  lemma NoTemplateParameters(name: string)
    requires AngleFree(name)
    ensures Removed(name) == name
  {
    assert name[0..] == name;
    RunAtEnd(name, 0, 0, 0, []);
  }

  /**
    One template block, however deeply nested inside, collapses to `<...>`:
    `prefix<body>suffix` becomes `prefix<...>suffix`.
  */
  lemma OneBlockCollapses(prefix: string, body: string, suffix: string)
    requires AngleFree(prefix) && AngleFree(suffix) && Balanced(body)
    ensures Removed(prefix + "<" + body + ">" + suffix) == prefix + Ellipsis + suffix
  {
    var name := prefix + "<" + body + ">" + suffix;
    var f := |prefix| + |body| + 2;
    var r := [] + Substr(name, 0, |prefix|) + Ellipsis;
    assert r == prefix + Ellipsis by {
      assert name[..|prefix|] == prefix;
    }
    assert name == [] + prefix + "<" + body + ">" + suffix;
    BlockLayout(name, [], prefix, body, suffix);
    OneTopLevelBlock(name, 0, |prefix|, body, 0, [], f, r);
    AfterLastBlock(name, prefix + "<" + body + ">", suffix, f, r);
  }

  /**
    A `<` that is never closed: the loop copies `<...>` for it, then finds no
    further bracket and appends substr(prev_i, npos) with prev_i still at the
    start, so the whole name follows the ellipsis.
  */
  lemma UnclosedBlockRepeats(prefix: string, rest: string)
    requires AngleFree(prefix) && AngleFree(rest)
    ensures Removed(prefix + "<" + rest) == prefix + Ellipsis + prefix + "<" + rest
  {
    var name := prefix + "<" + rest;
    var r := prefix + Ellipsis;
    UnclosedRun(name, prefix, rest, r);
    assert r + name == prefix + Ellipsis + prefix + "<" + rest;
  }

  /** The run of the loop over `prefix<rest`, both angle-free. */
  lemma UnclosedRun(name: string, prefix: string, rest: string, r: string)
    requires AngleFree(prefix) && AngleFree(rest)
    requires name == prefix + "<" + rest && r == prefix + Ellipsis
    ensures Removed(name) == r + name
  {
    var open := |prefix|;
    assert name[0..open] == prefix;
    assert name[open] == '<';
    assert name[open + 1..] == rest;
    assert [] + Substr(name, 0, open) + Ellipsis == r;
    RunSkipMany(name, 0, open, 0, 0, []);
    RunOpen(name, open, open + 1, 0, 0, 1, [], r);
    RunAtEnd(name, open + 1, 0, 1, r);
    assert name[0..] == name;
  }

  /**
    A second top-level block: before its `<...>` the loop copies
    substr(prev_i, next_begin), which takes next_begin characters (an
    absolute index) rather than the run `middle` between the blocks. The
    copied text therefore goes on past the second `<`.
  */
  lemma TwoBlocks(prefix: string, b1: string, middle: string, b2: string, suffix: string)
    requires AngleFree(prefix) && AngleFree(middle) && AngleFree(suffix)
    requires Balanced(b1) && Balanced(b2)
    ensures var name := prefix + "<" + b1 + ">" + middle + "<" + b2 + ">" + suffix;
      var e := |prefix| + |b1| + 2;
      var copied := Substr(name, e, e + |middle|);
      && Removed(name) == prefix + Ellipsis + copied + Ellipsis + suffix
      && |copied| >= |middle| + 2
      && copied[..|middle| + 1] == middle + "<"
  {
    var name := prefix + "<" + b1 + ">" + middle + "<" + b2 + ">" + suffix;
    var pre := prefix + "<" + b1 + ">";
    var e := |prefix| + |b1| + 2;
    assert |pre| == e;
    var copied := Substr(name, e, e + |middle|);
    TwoBlocksShape(prefix, b1, middle, b2, suffix);
    TwoBlocksRun(name, prefix, b1, middle, b2, suffix, pre, copied);
    CopiedPastMiddle(name, pre, middle, b2, suffix);
  }

  lemma TwoBlocksRun(name: string, prefix: string, b1: string, middle: string, b2: string, suffix: string,
                     pre: string, copied: string)
    requires AngleFree(prefix) && AngleFree(middle) && AngleFree(suffix)
    requires Balanced(b1) && Balanced(b2)
    requires pre == prefix + "<" + b1 + ">"
    requires name == prefix + "<" + b1 + ">" + (middle + "<" + b2 + ">" + suffix)
    requires name == pre + middle + "<" + b2 + ">" + suffix
    requires copied == Substr(name, |pre|, |pre| + |middle|)
    ensures Removed(name) == prefix + Ellipsis + copied + Ellipsis + suffix
  {
    var e := |pre|;
    var f := e + |middle| + |b2| + 2;
    var r1 := prefix + Ellipsis;
    var r2 := r1 + copied + Ellipsis;
    TwoBlocksFirst(name, prefix, b1, middle + "<" + b2 + ">" + suffix, e, r1);
    TwoBlocksSecond(name, pre, middle, b2, suffix, e, r1, f, r2);
  }

  /** The same name, grouped around its first block, its second block, and its end. */
  lemma TwoBlocksShape(prefix: string, b1: string, middle: string, b2: string, suffix: string)
    ensures var name := prefix + "<" + b1 + ">" + middle + "<" + b2 + ">" + suffix;
      var pre := prefix + "<" + b1 + ">";
      && name == prefix + "<" + b1 + ">" + (middle + "<" + b2 + ">" + suffix)
      && name == pre + middle + "<" + b2 + ">" + suffix
      && name == (pre + middle + "<" + b2 + ">") + suffix
  {
  }

  /** What substr(prev_i, next_begin) takes at the second block: `middle`, its `<` and more. */
  lemma CopiedPastMiddle(name: string, pre: string, middle: string, b2: string, suffix: string)
    requires name == pre + middle + "<" + b2 + ">" + suffix && |pre| >= 2
    ensures var copied := Substr(name, |pre|, |pre| + |middle|);
      |copied| >= |middle| + 2 && copied[..|middle| + 1] == middle + "<"
  {
    assert name[|pre|..|pre| + |middle| + 1] == middle + "<";
  }

  /** After the last block the loop appends the angle-free rest and stops. */
  lemma AfterLastBlock(name: string, pre: string, suffix: string, f: nat, res: string)
    requires name == pre + suffix && f == |pre| && AngleFree(suffix)
    ensures Run(name, f, f, 0, res) == res + suffix
  {
    assert name[f..] == suffix;
    RunAtEnd(name, f, f, 0, res);
  }

  lemma TwoBlocksFirst(name: string, prefix: string, b1: string, rest: string, e: nat, r1: string)
    requires name == prefix + "<" + b1 + ">" + rest
    requires AngleFree(prefix) && Balanced(b1)
    requires e == |prefix| + |b1| + 2 && r1 == prefix + Ellipsis
    ensures Removed(name) == Run(name, e, e, 0, r1)
  {
    assert name == [] + prefix + "<" + b1 + ">" + rest;
    assert [] + Substr(name, 0, |prefix|) + Ellipsis == r1;
    BlockLayout(name, [], prefix, b1, rest);
    OneTopLevelBlock(name, 0, |prefix|, b1, 0, [], e, r1);
  }

  lemma TwoBlocksSecond(name: string, pre: string, middle: string, b2: string, suffix: string,
                        e: nat, r1: string, f: nat, r2: string)
    requires name == pre + middle + "<" + b2 + ">" + suffix
    requires AngleFree(middle) && Balanced(b2) && AngleFree(suffix)
    requires e == |pre| && f == e + |middle| + |b2| + 2
    requires r2 == r1 + Substr(name, e, e + |middle|) + Ellipsis
    ensures Run(name, e, e, 0, r1) == r2 + suffix
  {
    BlockLayout(name, pre, middle, b2, suffix);
    OneTopLevelBlock(name, e, e + |middle|, b2, e, r1, f, r2);
    AfterLastBlock(name, pre + middle + "<" + b2 + ">", suffix, f, r2);
  }


  /** A single character other than an angle bracket is a balanced body. */
  lemma PlainCharBalanced(c: char)
    requires !IsAngle(c)
    ensures Balanced([c])
  {
    assert [c][..0] == [] && [c][..1] == [c];
    assert AngleDepth([c]) == 0 by {
      assert [c][..|[c]| - 1] == [];
    }
  }

  /**
    The case above on a short name such as `a<b>::c<d>`: the text copied
    before the second `<...>` runs on to the end of the name.
  */
  lemma SecondBlockExample(a: char, b: char, c: char, d: char)
    requires !IsAngle(a) && !IsAngle(b) && !IsAngle(c) && !IsAngle(d)
    ensures Removed([a, '<', b, '>', ':', ':', c, '<', d, '>'])
         == [a] + Ellipsis + [':', ':', c, '<', d, '>'] + Ellipsis
  {
    var name := [a, '<', b, '>', ':', ':', c, '<', d, '>'];
    var middle := [':', ':', c];
    PlainCharBalanced(b);
    PlainCharBalanced(d);
    assert AngleFree([a]) && AngleFree(middle) && AngleFree([]);
    assert name == [a] + "<" + [b] + ">" + middle + "<" + [d] + ">" + [];
    TwoBlocks([a], [b], middle, [d], []);
    assert Substr(name, 4, 7) == name[4..];
  }



}
