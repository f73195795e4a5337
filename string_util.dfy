/**
 * `stripNewlinesAndTabs`, the one-line normaliser used for log output:
 * every run of tabs, newlines and carriage returns becomes one space, every
 * run of two or more spaces becomes one space, and the ends are trimmed.
 */
module StringUtil {

  import opened Wrappers
  import opened JavaText

  /** The characters of the class `[\t\n\r]`. */
  predicate IsLineBreakOrTab(c: char)
  {
    c == '\t' || c == '\n' || c == '\r'
  }

  predicate NoLineBreaksOrTabs(s: string)
  {
    forall i :: 0 <= i < |s| ==> !IsLineBreakOrTab(s[i])
  }

  predicate NoDoubleSpace(s: string)
  {
    forall i :: 0 <= i < |s| - 1 ==> !(s[i] == ' ' && s[i + 1] == ' ')
  }

  /** `s` without its leading tabs, newlines and carriage returns. */
  function DropLineBreaksAndTabs(s: string): (r: string)
    ensures |r| <= |s| && r == s[|s| - |r|..]
    ensures r == [] || !IsLineBreakOrTab(r[0])
  {
    if s != [] && IsLineBreakOrTab(s[0]) then DropLineBreaksAndTabs(s[1..]) else s
  }

  /** `replaceAll("[\\t\\n\\r]+", " ")`: each maximal run of the class becomes one space. */
  function ReplaceLineBreaksAndTabs(s: string): (r: string)
    ensures NoLineBreaksOrTabs(r)
    decreases |s|
  {
    if s == [] then []
    else if IsLineBreakOrTab(s[0]) then " " + ReplaceLineBreaksAndTabs(DropLineBreaksAndTabs(s))
    else [s[0]] + ReplaceLineBreaksAndTabs(s[1..])
  }

  /** `s` without its leading spaces. */
  function DropSpaces(s: string): (r: string)
    ensures |r| <= |s| && r == s[|s| - |r|..]
    ensures r == [] || r[0] != ' '
  {
    if s != [] && s[0] == ' ' then DropSpaces(s[1..]) else s
  }

  /**
   * `replaceAll(" {2,}", " ")`: each run of two or more spaces becomes one
   * space; as a single space stays as it is, every maximal run of spaces
   * ends up as one space.
   */
  function CollapseSpaces(s: string): (r: string)
    ensures NoDoubleSpace(r)
    ensures r == [] || (s != [] && r[0] == s[0])
    decreases |s|
  {
    if s == [] then []
    else if s[0] == ' ' then " " + CollapseSpaces(DropSpaces(s))
    else [s[0]] + CollapseSpaces(s[1..])
  }

  /** A string with no tab, newline or carriage return is left alone by the first replacement. */
  lemma {:induction false} ReplaceLineBreaksAndTabsOfClean(s: string)
    requires NoLineBreaksOrTabs(s)
    ensures ReplaceLineBreaksAndTabs(s) == s
    decreases |s|
  {
    if s != [] {
      ReplaceLineBreaksAndTabsOfClean(s[1..]);
    }
  }

  /** A string with no two adjacent spaces is left alone by the second replacement. */
  lemma {:induction false} CollapseSpacesOfCollapsed(s: string)
    requires NoDoubleSpace(s)
    ensures CollapseSpaces(s) == s
    decreases |s|
  {
    if s != [] {
      assert NoDoubleSpace(s[1..]) by {
        forall i | 0 <= i < |s[1..]| - 1 ensures !(s[1..][i] == ' ' && s[1..][i + 1] == ' ') {
          assert s[1..][i] == s[i + 1] && s[1..][i + 1] == s[i + 2];
        }
      }
      CollapseSpacesOfCollapsed(s[1..]);
      if s[0] == ' ' {
        assert |s| == 1 || s[1] != ' ';
        assert DropSpaces(s) == s[1..];
      }
    }
  }

  /** Trimming introduces no tab, newline or carriage return, since it returns a slice. */
  lemma TrimKeepsNoLineBreaks(s: string)
    requires NoLineBreaksOrTabs(s)
    ensures NoLineBreaksOrTabs(Trim(s))
  {
    var a := TrimIsSlice(s);
    var r := Trim(s);
    forall i | 0 <= i < |r| ensures !IsLineBreakOrTab(r[i]) {
      assert r[i] == s[a + i];
    }
  }

  /** Trimming introduces no pair of adjacent spaces, since it returns a slice. */
  lemma TrimKeepsNoDoubleSpace(s: string)
    requires NoDoubleSpace(s)
    ensures NoDoubleSpace(Trim(s))
  {
    var a := TrimIsSlice(s);
    var r := Trim(s);
    forall i | 0 <= i < |r| - 1 ensures !(r[i] == ' ' && r[i + 1] == ' ') {
      assert r[i] == s[a + i] && r[i + 1] == s[a + i + 1];
    }
  }

  /** Collapsing spaces introduces no tab, newline or carriage return. */
  lemma {:induction false} CollapseKeepsNoLineBreaks(s: string)
    requires NoLineBreaksOrTabs(s)
    ensures NoLineBreaksOrTabs(CollapseSpaces(s))
    decreases |s|
  {
    if s != [] {
      var tail := if s[0] == ' ' then DropSpaces(s) else s[1..];
      assert NoLineBreaksOrTabs(tail) by {
        forall i | 0 <= i < |tail| ensures !IsLineBreakOrTab(tail[i]) {
          assert tail[i] == s[|s| - |tail| + i];
        }
      }
      CollapseKeepsNoLineBreaks(tail);
    }
  }

  /**
   * `stripNewlinesAndTabs`: null and the empty string come back as they
   * are; any other string is normalised to one trimmed line with single
   * spaces.
   */
  function StripNewlinesAndTabs(value: Option<string>): (r: Option<string>)
    ensures value.None? ==> r.None?
    ensures value == Some("") ==> r == value
    ensures value.Some? ==> r.Some? && NoLineBreaksOrTabs(r.value) && NoDoubleSpace(r.value) && Trimmed(r.value)
  {
    if value.None? || value.value == [] then value
    else
      var normalized := ReplaceLineBreaksAndTabs(value.value);
      var collapsed := CollapseSpaces(normalized);
      CollapseKeepsNoLineBreaks(normalized);
      TrimKeepsNoLineBreaks(collapsed);
      TrimKeepsNoDoubleSpace(collapsed);
      Some(Trim(collapsed))
  }

  /** Normalising twice is normalising once. */
  lemma StripIdempotent(value: Option<string>)
    ensures StripNewlinesAndTabs(StripNewlinesAndTabs(value)) == StripNewlinesAndTabs(value)
  {
    var once := StripNewlinesAndTabs(value);
    if once.Some? && once.value != [] {
      var s := once.value;
      ReplaceLineBreaksAndTabsOfClean(s);
      CollapseSpacesOfCollapsed(s);
      TrimOfTrimmed(s);
    }
  }

  /** Text without tabs and line breaks passes through the first replacement as it is. */
  lemma {:induction false} ReplaceKeepsCleanPrefix(a: string, b: string)
    requires NoLineBreaksOrTabs(a)
    ensures ReplaceLineBreaksAndTabs(a + b) == a + ReplaceLineBreaksAndTabs(b)
    decreases |a|
  {
    if a != [] {
      assert (a + b)[0] == a[0] && !IsLineBreakOrTab(a[0]);
      assert (a + b)[1..] == a[1..] + b;
      assert NoLineBreaksOrTabs(a[1..]) by {
        forall i | 0 <= i < |a[1..]| ensures !IsLineBreakOrTab(a[1..][i]) {
          assert a[1..][i] == a[i + 1];
        }
      }
      ReplaceKeepsCleanPrefix(a[1..], b);
      assert ReplaceLineBreaksAndTabs(a + b) == [a[0]] + ReplaceLineBreaksAndTabs(a[1..] + b);
      assert [a[0]] + (a[1..] + ReplaceLineBreaksAndTabs(b)) == a + ReplaceLineBreaksAndTabs(b);
    } else {
      assert a + b == b;
    }
  }

  /** A whole run of tabs and line breaks becomes a single space. */
  lemma ReplaceRun(a: string, b: string)
    requires a != [] && forall i :: 0 <= i < |a| ==> IsLineBreakOrTab(a[i])
    requires b == [] || !IsLineBreakOrTab(b[0])
    ensures ReplaceLineBreaksAndTabs(a + b) == " " + ReplaceLineBreaksAndTabs(b)
  {
    DropRun(a, b);
  }

  lemma {:induction false} DropRun(a: string, b: string)
    requires forall i :: 0 <= i < |a| ==> IsLineBreakOrTab(a[i])
    requires b == [] || !IsLineBreakOrTab(b[0])
    ensures DropLineBreaksAndTabs(a + b) == b
    decreases |a|
  {
    if a != [] {
      assert (a + b)[1..] == a[1..] + b;
      DropRun(a[1..], b);
    }
  }

  /** Text without spaces passes through the second replacement as it is. */
  lemma {:induction false} CollapseKeepsWord(a: string, b: string)
    requires ' ' !in a
    ensures CollapseSpaces(a + b) == a + CollapseSpaces(b)
    decreases |a|
  {
    if a != [] {
      assert (a + b)[0] == a[0] && a[0] != ' ';
      assert (a + b)[1..] == a[1..] + b;
      CollapseKeepsWord(a[1..], b);
      assert CollapseSpaces(a + b) == [a[0]] + CollapseSpaces(a[1..] + b);
      assert [a[0]] + (a[1..] + CollapseSpaces(b)) == a + CollapseSpaces(b);
    } else {
      assert a + b == b;
    }
  }

  /** A whole run of spaces becomes a single space. */
  lemma CollapseRun(a: string, b: string)
    requires a != [] && forall i :: 0 <= i < |a| ==> a[i] == ' '
    requires b == [] || b[0] != ' '
    ensures CollapseSpaces(a + b) == " " + CollapseSpaces(b)
  {
    DropSpaceRun(a, b);
  }

  lemma {:induction false} DropSpaceRun(a: string, b: string)
    requires forall i :: 0 <= i < |a| ==> a[i] == ' '
    requires b == [] || b[0] != ' '
    ensures DropSpaces(a + b) == b
    decreases |a|
  {
    if a != [] {
      assert (a + b)[1..] == a[1..] + b;
      DropSpaceRun(a[1..], b);
    }
  }

  /** The pieces of the documented input between its runs of tabs and line breaks. */
  lemma ExampleWordsClean()
    ensures NoLineBreaksOrTabs(" test") && NoLineBreaksOrTabs("world ") && NoLineBreaksOrTabs("  hello")
    ensures !IsLineBreakOrTab(' ') && !IsLineBreakOrTab('w')
  {
  }

  /** The documented input, cut at its runs of tabs and line breaks. */
  lemma InputPieces()
    ensures "\n" + ("  hello" + ("\t" + ("world " + ("\r\n" + " test")))) == "\n  hello\tworld \r\n test"
  {
  }

  /** The first intermediate result, cut where the first replacement left its spaces. */
  lemma ReplacedPieces()
    ensures " " + ("  hello" + (" " + ("world " + (" " + " test")))) == "   hello world   test"
  {
  }

  /** The first intermediate result, cut at its runs of spaces. */
  lemma SpaceRunPieces()
    ensures "   " + ("hello" + (" " + ("world" + ("   " + "test")))) == "   hello world   test"
  {
  }

  /** The second intermediate result, cut at its single spaces. */
  lemma CollapsedPieces()
    ensures " " + ("hello" + (" " + ("world" + (" " + "test")))) == " hello world test"
  {
  }

  /** The first replacement on the documented input turns each of its three runs into one space. */
  lemma ExampleReplaced()
    ensures ReplaceLineBreaksAndTabs("\n  hello\tworld \r\n test") == "   hello world   test"
  {
    ExampleWordsClean();
    var t5 := " test";
    var t4 := "\r\n" + t5;
    var t3 := "world " + t4;
    var t2 := "\t" + t3;
    var t1 := "  hello" + t2;
    var t0 := "\n" + t1;
    ReplaceKeepsCleanPrefix(t5, []);
    assert t5 + [] == t5;
    ReplaceRun("\r\n", t5);
    ReplaceKeepsCleanPrefix("world ", t4);
    ReplaceRun("\t", t3);
    ReplaceKeepsCleanPrefix("  hello", t2);
    ReplaceRun("\n", t1);
    InputPieces();
    ReplacedPieces();
  }

  /**
   * Three words, each preceded by a run of spaces, collapse to the same
   * words each preceded by a single space.
   */
  lemma CollapseThreeWords(r1: string, w1: string, r2: string, w2: string, r3: string, w3: string)
    requires r1 != [] && forall i :: 0 <= i < |r1| ==> r1[i] == ' '
    requires r2 != [] && forall i :: 0 <= i < |r2| ==> r2[i] == ' '
    requires r3 != [] && forall i :: 0 <= i < |r3| ==> r3[i] == ' '
    requires w1 != [] && w2 != [] && w3 != [] && ' ' !in w1 && ' ' !in w2 && ' ' !in w3
    ensures CollapseSpaces(r1 + (w1 + (r2 + (w2 + (r3 + w3))))) == " " + (w1 + (" " + (w2 + (" " + w3))))
  {
    CollapseKeepsWord(w3, []);
    assert w3 + [] == w3;
    CollapseRun(r3, w3);
    CollapseKeepsWord(w2, r3 + w3);
    CollapseRun(r2, w2 + (r3 + w3));
    CollapseKeepsWord(w1, r2 + (w2 + (r3 + w3)));
    CollapseRun(r1, w1 + (r2 + (w2 + (r3 + w3))));
  }

  /** The second replacement on the result collapses its runs of spaces. */
  lemma ExampleCollapsed()
    ensures CollapseSpaces("   hello world   test") == " hello world test"
  {
    CollapseThreeWords("   ", "hello", " ", "world", "   ", "test");
    SpaceRunPieces();
    CollapsedPieces();
  }

  /** Trimming the collapsed result removes its one leading space. */
  lemma ExampleTrimmed()
    ensures Trim(" hello world test") == "hello world test"
  {
    assert TrimStart(" hello world test") == "hello world test";
    assert TrimEnd("hello world test") == "hello world test";
  }

  /** The documented example: "\n  hello\tworld \r\n test" becomes "hello world test". */
  lemma DocumentedExample()
    ensures StripNewlinesAndTabs(Some("\n  hello\tworld \r\n test")) == Some("hello world test")
  {
    ExampleReplaced();
    ExampleCollapsed();
    ExampleTrimmed();
  }
}
