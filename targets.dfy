/**
 * The target list of the script: a multi-line literal split on '\n', each
 * piece trimmed, empty pieces dropped, order kept.
 */
module Targets {
  import opened Strings

  /** `.filter(Boolean)` over strings: the empty string is the only falsy one. */
  function KeepNonEmpty(xs: seq<string>): (r: seq<string>)
    ensures IsSubsequence(r, xs)
    ensures forall x :: x in r <==> x in xs && x != []
    ensures multiset(r) == multiset(xs)[[] := 0]
  {
    if xs == [] then []
    else
      assert xs == [xs[0]] + xs[1..];
      if xs[0] == [] then KeepNonEmpty(xs[1..])
      else [xs[0]] + KeepNonEmpty(xs[1..])
  }

  /** `.map((x) => x.trim())`. */
  function TrimEach(xs: seq<string>): (r: seq<string>)
    ensures |r| == |xs|
    ensures forall i :: 0 <= i < |xs| ==> r[i] == Trim(xs[i])
  {
    seq(|xs|, i requires 0 <= i < |xs| => Trim(xs[i]))
  }

  /** `block.split('\n').map((x) => x.trim()).filter(Boolean)`. */
  function Normalise(block: string): (r: seq<string>)
    ensures forall t :: t in r ==> t != []
    ensures |r| <= Count(block, '\n') + 1
  {
    SubsequenceBounds(KeepNonEmpty(TrimEach(SplitOn(block, '\n'))), TrimEach(SplitOn(block, '\n')));
    KeepNonEmpty(TrimEach(SplitOn(block, '\n')))
  }

  /** A trimmed string holds no character its source did not. */
  lemma TrimHoldsOnly(s: string, c: char)
    requires c in Trim(s)
    ensures c in s
  {
    TrimSlice(s);
  }

  /** There are at most as many targets as lines, and they come in line order. */
  lemma NormaliseOrder(block: string)
    ensures |Normalise(block)| <= Count(block, '\n') + 1
    ensures IsSubsequence(Normalise(block), TrimEach(SplitOn(block, '\n')))
  {
    SubsequenceBounds(Normalise(block), TrimEach(SplitOn(block, '\n')));
  }

  /** Every target is non-empty, holds no '\n', and neither starts nor ends with whitespace. */
  lemma NormaliseTrimmed(block: string, t: string)
    requires t in Normalise(block)
    ensures t != [] && '\n' !in t
    ensures !IsTrimmable(t[0]) && !IsTrimmable(t[|t| - 1])
  {
    var lines := SplitOn(block, '\n');
    var trimmed := TrimEach(lines);
    assert t in trimmed && t != [];
    var i :| 0 <= i < |lines| && trimmed[i] == t;
    TrimmedLine(lines[i]);
  }

  /** A line without '\n' that is not blank trims to a target of the required shape. */
  lemma TrimmedLine(line: string)
    requires '\n' !in line && Trim(line) != []
    ensures '\n' !in Trim(line)
    ensures !IsTrimmable(Trim(line)[0]) && !IsTrimmable(Trim(line)[|Trim(line)| - 1])
  {
    if '\n' in Trim(line) {
      TrimHoldsOnly(line, '\n');
    }
  }

  /** Every line that is not blank gives a target. */
  lemma NormaliseComplete(block: string, line: string)
    requires line in SplitOn(block, '\n') && Trim(line) != []
    ensures Trim(line) in Normalise(block)
  {
    var lines := SplitOn(block, '\n');
    var i :| 0 <= i < |lines| && lines[i] == line;
    assert TrimEach(lines)[i] == Trim(line);
  }

  /** The eight groups of three numbered sentences (English, Spanish, Chinese). */
  const Group1: seq<string> := ["1. That is a happy person", "1. Esa es una persona feliz", "1. 那是一位开心的人"]
  const Group2: seq<string> := ["2. [that] is a happy person", "2. [esa] es una persona feliz", "2. 那是一位【開心】的人"]
  const Group3: seq<string> := ["3. [This] is a happy person", "3. [Esta] es una persona feliz", "3. 【这】是一位开心的人"]
  const Group4: seq<string> := ["4. That is a [very] happy person", "4. Esa es una persona [muy] feliz", "4. 那是一位【非常】开心的人"]
  const Group5: seq<string> := ["5. That is an [unhappy] person", "5. Esa es una persona [infeliz]", "5. 那是一位【不开心】的人"]
  const Group6: seq<string> := ["6. That is a [very unhappy] person", "6. Esa es una persona [muy infeliz]", "6. 那是一位【非常不开心】的人"]
  const Group7: seq<string> := ["7. That is [not] a happy person", "7. Esa [no] es una persona feliz", "7. 那【不】是一位开心的人"]
  const Group8: seq<string> := ["8. That is a happy [dog]", "8. Ese es un [perro] feliz", "8. 那是一条开心的【狗】"]

  const Groups: seq<seq<string>> := [Group1, Group2, Group3, Group4, Group5, Group6, Group7, Group8]

  /** Each group preceded by a blank line. */
  function Paragraphs(groups: seq<seq<string>>): seq<string>
  {
    if groups == [] then [] else [""] + groups[0] + Paragraphs(groups[1..])
  }

  /** The groups one after the other. */
  function Flatten(groups: seq<seq<string>>): seq<string>
  {
    if groups == [] then [] else groups[0] + Flatten(groups[1..])
  }

  /**
   * The lines of the template literal: a blank line (the rest of the line that
   * opens it), then each group after a blank line, then two blank lines (the
   * empty line after the text and the start of the line that closes it).
   */
  const EmbeddedLines: seq<string> := [""] + Paragraphs(Groups) + ["", ""]

  /** The template literal itself: the lines above glued with '\n'. */
  const EmbeddedBlock: string := JoinWith(EmbeddedLines, '\n')

  /** The embedded targets, as the script computes them once at start-up. */
  const EmbeddedTargets: seq<string> := Normalise(EmbeddedBlock)

  /** A line of the literal that splitting and trimming leave as it is. */
  predicate IsCleanLine(s: string) {
    '\n' !in s && (s == [] || (!IsTrimmable(s[0]) && !IsTrimmable(s[|s| - 1])))
  }

  predicate AllClean(xs: seq<string>) {
    forall i :: 0 <= i < |xs| ==> IsCleanLine(xs[i])
  }

  lemma AllCleanAppend(a: seq<string>, b: seq<string>)
    requires AllClean(a) && AllClean(b)
    ensures AllClean(a + b)
  {
    forall i | 0 <= i < |a + b| ensures IsCleanLine((a + b)[i]) {
      if i >= |a| { assert (a + b)[i] == b[i - |a|]; }
    }
  }

  /** Filtering the empty strings out of a concatenation filters each part. */
  lemma {:induction false} KeepNonEmptyAppend(a: seq<string>, b: seq<string>)
    ensures KeepNonEmpty(a + b) == KeepNonEmpty(a) + KeepNonEmpty(b)
  {
    if a == [] {
      assert a + b == b;
    } else {
      assert (a + b)[0] == a[0];
      assert (a + b)[1..] == a[1..] + b;
      KeepNonEmptyAppend(a[1..], b);
    }
  }

  /** Clean lines glued with '\n' come back unchanged through split and trim. */
  lemma CleanLinesNormalise(lines: seq<string>)
    requires lines != [] && AllClean(lines)
    ensures Normalise(JoinWith(lines, '\n')) == KeepNonEmpty(lines)
  {
    SplitJoin(lines, '\n');
    forall i | 0 <= i < |lines| ensures Trim(lines[i]) == lines[i] {
      TrimKeepsTrimmed(lines[i]);
    }
    assert TrimEach(lines) == lines;
  }

  /** Non-empty clean lines: what each line of a group is. */
  predicate AllTargetLines(xs: seq<string>) {
    forall i :: 0 <= i < |xs| ==> xs[i] != [] && IsCleanLine(xs[i])
  }

  // One lemma per line keeps each literal check small.
  lemma Group1Line0() ensures Group1[0] != [] && IsCleanLine(Group1[0]) {}
  lemma Group1Line1() ensures Group1[1] != [] && IsCleanLine(Group1[1]) {}
  lemma Group1Line2() ensures Group1[2] != [] && IsCleanLine(Group1[2]) {}
  lemma Group2Line0() ensures Group2[0] != [] && IsCleanLine(Group2[0]) {}
  lemma Group2Line1() ensures Group2[1] != [] && IsCleanLine(Group2[1]) {}
  lemma Group2Line2() ensures Group2[2] != [] && IsCleanLine(Group2[2]) {}
  lemma Group3Line0() ensures Group3[0] != [] && IsCleanLine(Group3[0]) {}
  lemma Group3Line1() ensures Group3[1] != [] && IsCleanLine(Group3[1]) {}
  lemma Group3Line2() ensures Group3[2] != [] && IsCleanLine(Group3[2]) {}
  lemma Group4Line0() ensures Group4[0] != [] && IsCleanLine(Group4[0]) {}
  lemma Group4Line1() ensures Group4[1] != [] && IsCleanLine(Group4[1]) {}
  lemma Group4Line2() ensures Group4[2] != [] && IsCleanLine(Group4[2]) {}
  lemma Group5Line0() ensures Group5[0] != [] && IsCleanLine(Group5[0]) {}
  lemma Group5Line1() ensures Group5[1] != [] && IsCleanLine(Group5[1]) {}
  lemma Group5Line2() ensures Group5[2] != [] && IsCleanLine(Group5[2]) {}
  lemma Group6Line0() ensures Group6[0] != [] && IsCleanLine(Group6[0]) {}
  lemma Group6Line1() ensures Group6[1] != [] && IsCleanLine(Group6[1]) {}
  lemma Group6Line2() ensures Group6[2] != [] && IsCleanLine(Group6[2]) {}
  lemma Group7Line0() ensures Group7[0] != [] && IsCleanLine(Group7[0]) {}
  lemma Group7Line1() ensures Group7[1] != [] && IsCleanLine(Group7[1]) {}
  lemma Group7Line2() ensures Group7[2] != [] && IsCleanLine(Group7[2]) {}
  lemma Group8Line0() ensures Group8[0] != [] && IsCleanLine(Group8[0]) {}
  lemma Group8Line1() ensures Group8[1] != [] && IsCleanLine(Group8[1]) {}
  lemma Group8Line2() ensures Group8[2] != [] && IsCleanLine(Group8[2]) {}

  lemma Group1Lines() ensures AllTargetLines(Group1) {
    Group1Line0(); Group1Line1(); Group1Line2();
  }
  lemma Group2Lines() ensures AllTargetLines(Group2) {
    Group2Line0(); Group2Line1(); Group2Line2();
  }
  lemma Group3Lines() ensures AllTargetLines(Group3) {
    Group3Line0(); Group3Line1(); Group3Line2();
  }
  lemma Group4Lines() ensures AllTargetLines(Group4) {
    Group4Line0(); Group4Line1(); Group4Line2();
  }
  lemma Group5Lines() ensures AllTargetLines(Group5) {
    Group5Line0(); Group5Line1(); Group5Line2();
  }
  lemma Group6Lines() ensures AllTargetLines(Group6) {
    Group6Line0(); Group6Line1(); Group6Line2();
  }
  lemma Group7Lines() ensures AllTargetLines(Group7) {
    Group7Line0(); Group7Line1(); Group7Line2();
  }
  lemma Group8Lines() ensures AllTargetLines(Group8) {
    Group8Line0(); Group8Line1(); Group8Line2();
  }

  /** Non-empty lines all survive the filter. */
  lemma {:induction false} KeepAllNonEmpty(xs: seq<string>)
    requires forall i :: 0 <= i < |xs| ==> xs[i] != []
    ensures KeepNonEmpty(xs) == xs
  {
    if xs != [] {
      KeepAllNonEmpty(xs[1..]);
    }
  }

  /** Blank-separated groups of non-empty lines filter down to the groups themselves. */
  lemma {:induction false} KeepNonEmptyParagraphs(groups: seq<seq<string>>)
    requires forall k, i :: 0 <= k < |groups| && 0 <= i < |groups[k]| ==> groups[k][i] != []
    ensures KeepNonEmpty(Paragraphs(groups)) == Flatten(groups)
  {
    if groups != [] {
      KeepAllNonEmpty(groups[0]);
      KeepNonEmptyAppend([""] + groups[0], Paragraphs(groups[1..]));
      KeepNonEmptyAppend([""], groups[0]);
      KeepNonEmptyParagraphs(groups[1..]);
    }
  }

  /** Blank-separated groups of clean lines are clean lines. */
  lemma {:induction false} ParagraphsClean(groups: seq<seq<string>>)
    requires forall k :: 0 <= k < |groups| ==> AllTargetLines(groups[k])
    ensures AllClean(Paragraphs(groups))
  {
    if groups != [] {
      ParagraphsClean(groups[1..]);
      AllCleanAppend([""], groups[0]);
      AllCleanAppend([""] + groups[0], Paragraphs(groups[1..]));
    }
  }

  /** Every line of the literal is already split and trimmed. */
  lemma EmbeddedLinesClean()
    ensures AllClean(EmbeddedLines)
  {
    Group1Lines(); Group2Lines(); Group3Lines(); Group4Lines();
    Group5Lines(); Group6Lines(); Group7Lines(); Group8Lines();
    ParagraphsClean(Groups);
    AllCleanAppend([""], Paragraphs(Groups));
    AllCleanAppend([""] + Paragraphs(Groups), ["", ""]);
  }

  /** Dropping the blank lines of the literal leaves the groups, in order. */
  lemma EmbeddedLinesNonEmpty()
    ensures KeepNonEmpty(EmbeddedLines) == Flatten(Groups)
  {
    KeepNonEmptyParagraphs(Groups);
    KeepNonEmptyAppend([""], Paragraphs(Groups));
    KeepNonEmptyAppend([""] + Paragraphs(Groups), ["", ""]);
  }

  /** Flattening groups of three puts element i of group k at 3 * k + i. */
  lemma {:induction false} FlattenThrees(groups: seq<seq<string>>)
    requires forall k :: 0 <= k < |groups| ==> |groups[k]| == 3
    ensures |Flatten(groups)| == 3 * |groups|
    ensures forall k, i :: 0 <= k < |groups| && 0 <= i < 3 ==> Flatten(groups)[3 * k + i] == groups[k][i]
  {
    if groups != [] {
      FlattenThrees(groups[1..]);
      forall k, i | 0 <= k < |groups| && 0 <= i < 3
        ensures Flatten(groups)[3 * k + i] == groups[k][i]
      {
        if k > 0 {
          assert Flatten(groups)[3 * k + i] == Flatten(groups[1..])[3 * (k - 1) + i];
        }
      }
    }
  }

  /** Splitting, trimming and filtering the embedded block gives the groups back, in order. */
  lemma EmbeddedTargetsAreGroups()
    ensures EmbeddedTargets == Flatten(Groups)
  {
    EmbeddedLinesClean();
    EmbeddedLinesNonEmpty();
    CleanLinesNormalise(EmbeddedLines);
  }

  /**
   * The groups hold 24 targets, 8 numbered groups of 3, from
   * "1. That is a happy person" to "8. 那是一条开心的【狗】".
   */
  lemma GroupsShape()
    ensures |Flatten(Groups)| == 24
    ensures forall k, i :: 0 <= k < 8 && 0 <= i < 3 ==> Flatten(Groups)[3 * k + i] == Groups[k][i]
    ensures Flatten(Groups)[0] == "1. That is a happy person"
    ensures Flatten(Groups)[23] == "8. 那是一条开心的【狗】"
  {
    FlattenThrees(Groups);
    assert Flatten(Groups)[0] == Groups[0][0];
    assert Flatten(Groups)[23] == Groups[7][2];
  }

  /** The embedded block yields exactly 24 targets, the first and the last as written. */
  lemma EmbeddedTargetsValue()
    ensures |EmbeddedTargets| == 24
    ensures EmbeddedTargets[0] == "1. That is a happy person"
    ensures EmbeddedTargets[23] == "8. 那是一条开心的【狗】"
  {
    EmbeddedTargetsAreGroups();
    GroupsShape();
  }
}
