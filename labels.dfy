/**
 * The text sent for each target: `t.replaceAll(/^\d+\. |[\[\]【】]/gmu, '')`.
 * One left-to-right pass over the original string deletes every bracket
 * (`[`, `]`, `【`, `】`) and every run of ASCII digits followed by ". " that
 * starts a line.
 */
module Labels {
  import opened Strings

  /** The class `[\[\]【】]`. */
  predicate IsBracket(c: char) {
    c == '[' || c == ']' || c == '【' || c == '】'
  }

  /** Where `^` matches under the `m` flag: the start of the string or just after a line terminator. */
  predicate AtLineStart(s: string, i: nat)
    requires i <= |s|
  {
    i == 0 || IsLineTerminator(s[i - 1])
  }

  /** Length of the run of ASCII digits that starts at `i`. */
  function DigitRun(s: string, i: nat): (n: nat)
    requires i <= |s|
    ensures i + n <= |s|
    ensures forall k :: i <= k < i + n ==> IsDigit(s[k])
    ensures i + n == |s| || !IsDigit(s[i + n])
    decreases |s| - i
  {
    if i < |s| && IsDigit(s[i]) then 1 + DigitRun(s, i + 1) else 0
  }

  /**
   * Length of the match of the first alternative `^\d+\. ` at `i`, or 0 when
   * it does not match there. `\d+` is greedy, and giving back digits cannot
   * help because the next character would then be a digit, not '.'.
   */
  function OrdinalLength(s: string, i: nat): (n: nat)
    requires i <= |s|
    ensures i + n <= |s|
    ensures n > 0 ==>
      && AtLineStart(s, i) && n >= 3
      && s[i + n - 2] == '.' && s[i + n - 1] == ' '
  {
    var d := DigitRun(s, i);
    if AtLineStart(s, i) && d > 0 && i + d + 1 < |s| && s[i + d] == '.' && s[i + d + 1] == ' '
    then d + 2
    else 0
  }

  /** What a match of the ordinal alternative covers before its ". " is all digits. */
  lemma OrdinalDigits(s: string, i: nat)
    requires i <= |s|
    ensures forall k :: i <= k < i + OrdinalLength(s, i) - 2 ==> IsDigit(s[k])
  {
  }

  /** Any way the first alternative can match at `i` is the one `OrdinalLength` finds. */
  lemma OrdinalLengthComplete(s: string, i: nat, d: nat)
    requires i <= |s| && AtLineStart(s, i)
    requires 1 <= d && i + d + 2 <= |s|
    requires forall k :: i <= k < i + d ==> IsDigit(s[k])
    requires s[i + d] == '.' && s[i + d + 1] == ' '
    ensures OrdinalLength(s, i) == d + 2
  {
    var n := DigitRun(s, i);
    assert n >= d;
    assert n <= d;
  }

  /** Where a match of the ordinal alternative at `i` ends (`i` itself when there is none). */
  function OrdinalEnd(s: string, i: nat): (e: nat)
    requires i <= |s|
    ensures i <= e <= |s|
  {
    i + OrdinalLength(s, i)
  }

  /** The scan of `replaceAll` from position `i` of the original string. */
  function StripFrom(s: string, i: nat): (r: string)
    requires i <= |s|
    ensures |r| <= |s| - i
    decreases |s| - i
  {
    if i == |s| then []
    else
      if OrdinalLength(s, i) > 0 then StripFrom(s, OrdinalEnd(s, i))
      else if IsBracket(s[i]) then StripFrom(s, i + 1)
      else [s[i]] + StripFrom(s, i + 1)
  }

  /** The pattern matches at `j`, whatever the scan: a bracket, or a line-initial ordinal. */
  predicate MatchesAt(s: string, j: nat)
    requires j < |s|
  {
    IsBracket(s[j]) || OrdinalLength(s, j) > 0
  }

  /** Where the pattern matches, the scan deletes at least one character. */
  lemma StripFromDeletesHere(s: string, i: nat)
    requires i < |s| && MatchesAt(s, i)
    ensures |StripFrom(s, i)| < |s| - i
  {
  }

  /** Where the pattern does not match, the scan keeps the character and moves on by one. */
  lemma StripFromKeepsHere(s: string, i: nat)
    requires i < |s| && !MatchesAt(s, i)
    ensures StripFrom(s, i) == [s[i]] + StripFrom(s, i + 1)
  {
  }

  /** At a line-initial ordinal the scan jumps past it. */
  lemma StripFromSkipsOrdinal(s: string, i: nat)
    requires i < |s| && OrdinalLength(s, i) > 0
    ensures StripFrom(s, i) == StripFrom(s, OrdinalEnd(s, i))
  {
  }

  /** At a bracket (where no ordinal starts) the scan drops it. */
  lemma StripFromSkipsBracket(s: string, i: nat)
    requires i < |s| && OrdinalLength(s, i) == 0 && IsBracket(s[i])
    ensures StripFrom(s, i) == StripFrom(s, i + 1)
  {
  }

  /** Nothing the scan keeps is a bracket. */
  lemma {:induction false} StripFromBracketFree(s: string, i: nat)
    requires i <= |s|
    ensures forall c :: c in StripFrom(s, i) ==> !IsBracket(c)
    decreases |s| - i
  {
    if i < |s| {
      if OrdinalLength(s, i) > 0 {
        StripFromSkipsOrdinal(s, i);
        StripFromBracketFree(s, OrdinalEnd(s, i));
      } else if IsBracket(s[i]) {
        StripFromSkipsBracket(s, i);
        StripFromBracketFree(s, i + 1);
      } else {
        StripFromKeepsHere(s, i);
        StripFromBracketFree(s, i + 1);
      }
    }
  }

  /** The scan only deletes: what it keeps is a subsequence of what it scanned. */
  lemma {:induction false} StripFromSubsequence(s: string, i: nat)
    requires i <= |s|
    ensures IsSubsequence(StripFrom(s, i), s[i..])
    decreases |s| - i
  {
    if i < |s| {
      if OrdinalLength(s, i) > 0 {
        StripFromSkipsOrdinal(s, i);
        StripFromSubsequence(s, OrdinalEnd(s, i));
        SubsequenceOfSuffix(StripFrom(s, OrdinalEnd(s, i)), s, i, OrdinalEnd(s, i));
      } else if IsBracket(s[i]) {
        StripFromSkipsBracket(s, i);
        StripFromSubsequence(s, i + 1);
        SubsequenceOfSuffix(StripFrom(s, i + 1), s, i, i + 1);
      } else {
        StripFromKeepsHere(s, i);
        StripFromSubsequence(s, i + 1);
        SubsequenceConsSuffix(StripFrom(s, i + 1), s, i);
      }
    }
  }

  /**
   * The label with its line-initial ordinals and its brackets removed: it only
   * deletes characters, so it is a subsequence of the label and never longer,
   * and no bracket is left.
   */
  function Strip(s: string): (r: string)
    ensures IsSubsequence(r, s) && |r| <= |s|
    ensures forall c :: c in r ==> !IsBracket(c)
  {
    assert s[0..] == s;
    StripFromSubsequence(s, 0);
    StripFromBracketFree(s, 0);
    StripFrom(s, 0)
  }

  /** Position `j` lies inside a match of `^\d+\. ` that starts at or before it. */
  ghost predicate InOrdinal(s: string, j: nat)
    requires j < |s|
  {
    exists i :: 0 <= i <= j && j < OrdinalEnd(s, i)
  }

  /** The character at `j` is kept: it is no bracket and lies in no line-initial ordinal. */
  ghost predicate Survives(s: string, j: nat)
    requires j < |s|
  {
    !IsBracket(s[j]) && !InOrdinal(s, j)
  }

  /** The characters of `s[i..]` that are kept, in order: what the whole pass must produce. */
  ghost function Survivors(s: string, i: nat): string
    requires i <= |s|
    decreases |s| - i
  {
    if i == |s| then [] else (if Survives(s, i) then [s[i]] else []) + Survivors(s, i + 1)
  }

  /** No ordinal match that starts before `i` reaches past `i`. */
  ghost predicate ScanBoundary(s: string, i: nat)
    requires i <= |s|
  {
    forall j :: 0 <= j < i ==> OrdinalEnd(s, j) <= i
  }

  /** A run of positions inside ordinals contributes nothing. */
  lemma {:induction false} SurvivorsSkip(s: string, i: nat, n: nat)
    requires i + n <= |s|
    requires forall j :: i <= j < i + n ==> InOrdinal(s, j)
    ensures Survivors(s, i) == Survivors(s, i + n)
    decreases n
  {
    if n > 0 {
      assert !Survives(s, i);
      SurvivorsSkip(s, i + 1, n - 1);
    }
  }

  /** A match of the ordinal alternative hides no other line start, and none of it survives. */
  lemma ScanBoundaryAfterOrdinal(s: string, i: nat)
    requires i < |s| && ScanBoundary(s, i) && OrdinalLength(s, i) > 0
    ensures ScanBoundary(s, OrdinalEnd(s, i))
    ensures Survivors(s, i) == Survivors(s, OrdinalEnd(s, i))
  {
    var n := OrdinalLength(s, i);
    forall j | i <= j < i + n ensures InOrdinal(s, j) {
      assert i <= j < OrdinalEnd(s, i);
    }
    OrdinalDigits(s, i);
    forall j | 0 <= j < i + n ensures OrdinalEnd(s, j) <= i + n {
      if i < j {
        assert IsDigit(s[j - 1]) || s[j - 1] == '.';
        assert !AtLineStart(s, j);
      }
    }
    SurvivorsSkip(s, i, n);
  }

  /** Where no ordinal starts, the scan position moves on by one and the character is judged alone. */
  lemma ScanBoundaryAfterChar(s: string, i: nat)
    requires i < |s| && ScanBoundary(s, i) && OrdinalLength(s, i) == 0
    ensures ScanBoundary(s, i + 1)
    ensures IsBracket(s[i]) ==> Survivors(s, i) == Survivors(s, i + 1)
    ensures !IsBracket(s[i]) ==> Survivors(s, i) == [s[i]] + Survivors(s, i + 1)
  {
    assert !InOrdinal(s, i);
    if IsBracket(s[i]) {
      assert [] + Survivors(s, i + 1) == Survivors(s, i + 1);
    }
  }

  /**
   * Scanning from a position no earlier match reaches past keeps exactly the
   * surviving characters: matches are found against the original string, and
   * one match never hides the start of another.
   */
  lemma {:induction false} StripFromSurvivors(s: string, i: nat)
    requires i <= |s| && ScanBoundary(s, i)
    ensures StripFrom(s, i) == Survivors(s, i)
    decreases |s| - i
  {
    if i < |s| {
      if OrdinalLength(s, i) > 0 {
        StripFromSkipsOrdinal(s, i);
        ScanBoundaryAfterOrdinal(s, i);
        StripFromSurvivors(s, OrdinalEnd(s, i));
      } else {
        ScanBoundaryAfterChar(s, i);
        StripFromSurvivors(s, i + 1);
        if IsBracket(s[i]) {
          StripFromSkipsBracket(s, i);
        } else {
          StripFromKeepsHere(s, i);
        }
      }
    }
  }

  /**
   * The single left-to-right pass deletes exactly the brackets and the
   * line-initial ordinals of the original label, and keeps every other
   * character in order.
   */
  lemma StripIsSurvivors(s: string)
    ensures Strip(s) == Survivors(s, 0)
  {
    StripFromSurvivors(s, 0);
  }

  /** A label with no bracket and no line-initial ordinal, from `i` on. */
  predicate PlainFrom(s: string, i: nat)
    requires i <= |s|
  {
    forall j :: i <= j < |s| ==> !MatchesAt(s, j)
  }

  /** With nothing to delete from `i` on, the scan copies. */
  lemma {:induction false} StripFromPlain(s: string, i: nat)
    requires i <= |s| && PlainFrom(s, i)
    ensures StripFrom(s, i) == s[i..]
    decreases |s| - i
  {
    if i < |s| {
      StripFromPlain(s, i + 1);
      StripFromKeepsHere(s, i);
      assert s[i..] == [s[i]] + s[i + 1..];
    }
  }

  /** A bracket or a line-initial ordinal at or after `i` makes the scan delete something. */
  lemma {:induction false} StripFromDeletes(s: string, i: nat, j: nat)
    requires i <= j < |s| && MatchesAt(s, j)
    ensures |StripFrom(s, i)| < |s| - i
    decreases j - i
  {
    if MatchesAt(s, i) {
      StripFromDeletesHere(s, i);
    } else {
      StripFromKeepsHere(s, i);
      StripFromDeletes(s, i + 1, j);
    }
  }

  /**
   * Stripping leaves a label unchanged exactly when it holds no bracket and no
   * line-initial `digits. `.
   */
  lemma StripUnchanged(s: string)
    ensures Strip(s) == s <==> PlainFrom(s, 0)
  {
    assert s[0..] == s;
    if PlainFrom(s, 0) {
      StripFromPlain(s, 0);
    } else {
      var j :| 0 <= j < |s| && MatchesAt(s, j);
      StripFromDeletes(s, 0, j);
    }
  }

  /** The characters of `t` that are not brackets, in order. */
  function Unbracketed(t: string): (r: string)
    ensures |r| <= |t|
  {
    if t == [] then []
    else (if IsBracket(t[0]) then [] else [t[0]]) + Unbracketed(t[1..])
  }

  /** Dropping brackets from a bracket-free prefix leaves that prefix in place. */
  lemma {:induction false} UnbracketedPlainThen(a: string, b: string)
    requires forall k :: 0 <= k < |a| ==> !IsBracket(a[k])
    ensures Unbracketed(a + b) == a + Unbracketed(b)
  {
    if a != [] {
      assert (a + b)[1..] == a[1..] + b;
      UnbracketedPlainThen(a[1..], b);
      assert a == [a[0]] + a[1..];
    } else {
      assert a + b == b;
    }
  }

  /** `t` holds no line terminator, so only its first position can be a line start. */
  predicate OneLine(t: string) {
    forall k :: 0 <= k < |t| ==> !IsLineTerminator(t[k])
  }

  /** Inside a single line, past its first character, only the brackets go. */
  lemma {:induction false} StripFromOneLine(s: string, i: nat)
    requires 0 < i <= |s| && OneLine(s[i - 1..])
    ensures StripFrom(s, i) == Unbracketed(s[i..])
    decreases |s| - i
  {
    if i < |s| {
      assert s[i - 1..][0] == s[i - 1];
      assert !AtLineStart(s, i);
      assert OneLine(s[i..]) by {
        forall k | 0 <= k < |s[i..]| ensures !IsLineTerminator(s[i..][k]) {
          assert s[i..][k] == s[i - 1..][k + 1];
        }
      }
      StripFromOneLine(s, i + 1);
      assert s[i..][1..] == s[i + 1..];
      if IsBracket(s[i]) {
        StripFromSkipsBracket(s, i);
      } else {
        StripFromKeepsHere(s, i);
      }
    }
  }

  /** A one-line label numbered `d. ` loses its number and its brackets. */
  lemma StripNumberedLine(d: string, t: string)
    requires d != [] && forall k :: 0 <= k < |d| ==> IsDigit(d[k])
    requires OneLine(t)
    ensures Strip(d + ". " + t) == Unbracketed(t)
  {
    var s := d + ". " + t;
    forall k | 0 <= k < |d| ensures IsDigit(s[k]) {
      assert s[k] == d[k];
    }
    OrdinalLengthComplete(s, 0, |d|);
    StripFromSkipsOrdinal(s, 0);
    assert s[|d| + 1..] == [' '] + t;
    assert s[|d| + 2..] == t;
    StripFromOneLine(s, |d| + 2);
  }

  /** A one-line label that does not start with a digit loses only its brackets. */
  lemma StripUnnumberedLine(s: string)
    requires s != [] && !IsDigit(s[0]) && OneLine(s)
    ensures Strip(s) == Unbracketed(s)
  {
    assert DigitRun(s, 0) == 0;
    assert s[0..] == s;
    StripFromOneLine(s, 1);
    assert s[1..] == s[0..][1..];
    if IsBracket(s[0]) {
      StripFromSkipsBracket(s, 0);
    } else {
      StripFromKeepsHere(s, 0);
    }
  }

  // Worked labels. Each literal is split into pieces so that the facts about
  // the pieces are proved separately and then combined.

  lemma DogLineFacts()
    ensures "8. That is a happy [dog]" == "8" + ". " + ("That is a happy " + "[dog]")
    ensures "That is a happy " + "dog" == "That is a happy dog"
  {
  }

  lemma DogTailFacts()
    ensures OneLine("That is a happy " + "[dog]")
    ensures forall k :: 0 <= k < |"That is a happy "| ==> !IsBracket("That is a happy "[k])
    ensures Unbracketed("[dog]") == "dog"
  {
  }

  /** The eighth English label of the embedded list loses its number and its square brackets. */
  lemma StripDogLine()
    ensures Strip("8. That is a happy [dog]") == "That is a happy dog"
  {
    DogTailFacts();
    StripNumberedLine("8", "That is a happy " + "[dog]");
    UnbracketedPlainThen("That is a happy ", "[dog]");
    DogLineFacts();
  }

  lemma PersonLineFacts()
    ensures "2. 那是一位【開心】的人" == "2" + ". " + ("那是一位" + "【開心】的人")
    ensures "那是一位" + "開心的人" == "那是一位開心的人"
  {
  }

  lemma PersonTailFacts()
    ensures OneLine("那是一位" + "【開心】的人")
    ensures forall k :: 0 <= k < |"那是一位"| ==> !IsBracket("那是一位"[k])
    ensures Unbracketed("【開心】的人") == "開心的人"
  {
  }

  /** A label with full-width lenticular brackets loses them as well. */
  lemma StripPersonLine()
    ensures Strip("2. 那是一位【開心】的人") == "那是一位開心的人"
  {
    PersonTailFacts();
    StripNumberedLine("2", "那是一位" + "【開心】的人");
    UnbracketedPlainThen("那是一位", "【開心】的人");
    PersonLineFacts();
  }

  /** A number of several digits goes as a whole. */
  lemma StripMultiDigitNumber()
    ensures Strip("12. x") == "x"
  {
    StripNumberedLine("12", "x");
    assert "12" + ". " + "x" == "12. x";
  }

  lemma SecondNumberFacts()
    ensures "1" + ". " + "2. x" == "1. 2. x"
    ensures OneLine("2. x") && Unbracketed("2. x") == "2. x"
  {
  }

  /** Only the number at the start of the line goes: the one it uncovers stays. */
  lemma StripSecondNumberStays()
    ensures Strip("1. 2. x") == "2. x"
  {
    SecondNumberFacts();
    StripNumberedLine("1", "2. x");
  }

  lemma MidLineFacts()
    ensures OneLine("a 1. x") && Unbracketed("a 1. x") == "a 1. x"
  {
  }

  /** A number that does not start the line is not a list number. */
  lemma StripMidLineNumberStays()
    ensures Strip("a 1. x") == "a 1. x"
  {
    MidLineFacts();
    StripUnnumberedLine("a 1. x");
  }

  lemma BracketFirstFacts()
    ensures OneLine("[1. x") && Unbracketed("[1. x") == "1. x"
    ensures "1" + ". " + "x" == "1. x"
    ensures OneLine("x") && Unbracketed("x") == "x"
  {
  }

  /**
   * Stripping is not idempotent: a bracket in front of a number hides the
   * number from the pass that removes the bracket.
   */
  lemma StripNotIdempotent()
    ensures Strip("[1. x") == "1. x"
    ensures Strip(Strip("[1. x")) == "x"
  {
    BracketFirstFacts();
    StripUnnumberedLine("[1. x");
    StripNumberedLine("1", "x");
  }
}
