/**
 * The java.lang.String and Character operations the modelled code relies on,
 * stated over `seq<char>`: whitespace and blankness, `trim`, prefixes,
 * `indexOf`, `split` with a single-character delimiter, joining, ASCII case
 * folding and the decimal form of a natural number.
 */
module JavaText {

  import opened Wrappers

  /** `Character.isWhitespace`: the Unicode space separators other than the no-break spaces, and the ASCII controls TAB..CR and FS..US. */
  predicate IsWhitespace(c: char)
  {
    var n := c as int;
    n == 0x20 || (0x09 <= n <= 0x0D) || (0x1C <= n <= 0x1F)
    || n == 0x1680 || (0x2000 <= n <= 0x2006) || (0x2008 <= n <= 0x200A)
    || n == 0x2028 || n == 0x2029 || n == 0x205F || n == 0x3000
  }

  /** `String.isBlank` (true of the empty string). */
  predicate IsBlank(s: string)
  {
    forall i :: 0 <= i < |s| ==> IsWhitespace(s[i])
  }

  /** Spring's `StringUtils.hasText` and commons-lang's `isNotBlank`, on a nullable string. */
  predicate HasText(s: Option<string>)
  {
    s.Some? && !IsBlank(s.value)
  }

  predicate StartsWith(s: string, prefix: string)
  {
    |prefix| <= |s| && s[..|prefix|] == prefix
  }

  /** `sub` occurs in `s` at offset `i`. */
  predicate OccursAt(s: string, sub: string, i: int)
  {
    0 <= i <= |s| - |sub| && s[i..i + |sub|] == sub
  }

  /** `String.contains`: `sub` occurs at some offset of `s`. */
  predicate Contains(s: string, sub: string)
  {
    exists i | 0 <= i <= |s| - |sub| :: OccursAt(s, sub, i)
  }

  /** `IndexOf` finds the first occurrence: none starts before it. */
  lemma {:induction false} IndexOfFirst(s: string, sub: string, i: int)
    requires 0 <= i < IndexOf(s, sub)
    ensures !OccursAt(s, sub, i)
    decreases |s|
  {
    if |s| >= |sub| && s[..|sub|] != sub {
      if i == 0 {
        assert s[0..|sub|] == s[..|sub|];
      } else {
        IndexOfFirst(s[1..], sub, i - 1);
        OccursAtTail(s, sub, i);
      }
    }
  }

  /** The first occurrence of `c` is at `k` when `s[k]` is `c` and nothing before it is. */
  lemma IndexOfCharAt(s: string, c: char, k: int)
    requires 0 <= k < |s| && s[k] == c && forall j :: 0 <= j < k ==> s[j] != c
    ensures IndexOfChar(s, c) == k
  {
    var r := IndexOfChar(s, c);
    assert forall j :: 0 <= j < r ==> s[j] != c by {
      forall j | 0 <= j < r ensures s[j] != c {
        assert s[j] == s[..r][j];
      }
    }
  }

  /** `String.indexOf(char)`: the first index holding `c`, or -1. */
  function IndexOfChar(s: string, c: char): (r: int)
    ensures -1 <= r < |s|
    ensures r == -1 <==> c !in s
    ensures 0 <= r ==> s[r] == c && c !in s[..r]
  {
    if s == [] then -1
    else if s[0] == c then 0
    else
      var k := IndexOfChar(s[1..], c);
      assert s[1..][..if k < 0 then 0 else k] == s[1..if k < 0 then 1 else k + 1];
      if k < 0 then -1 else k + 1
  }

  lemma OccursAtTail(s: string, sub: string, i: int)
    requires |s| > 0 && 1 <= i
    ensures OccursAt(s, sub, i) == OccursAt(s[1..], sub, i - 1)
  {
    if 0 <= i - 1 <= |s[1..]| - |sub| {
      var t := s[1..];
      forall j | i <= j < i + |sub| ensures t[j - 1] == s[j] {
      }
      assert s[i..i + |sub|] == t[i - 1..i - 1 + |sub|];
    }
  }

  /** `String.indexOf(String)`: the first offset at which `sub` occurs, or -1. */
  function IndexOf(s: string, sub: string): (r: int)
    ensures -1 <= r
    ensures r == -1 <==> !Contains(s, sub)
    ensures 0 <= r ==> OccursAt(s, sub, r)
    decreases |s|
  {
    if |s| < |sub| then -1
    else if s[..|sub|] == sub then assert OccursAt(s, sub, 0); 0
    else
      var k := IndexOf(s[1..], sub);
      assert forall i :: 1 <= i ==> OccursAt(s, sub, i) == OccursAt(s[1..], sub, i - 1) by {
        forall i | 1 <= i ensures OccursAt(s, sub, i) == OccursAt(s[1..], sub, i - 1) {
          OccursAtTail(s, sub, i);
        }
      }
      assert !OccursAt(s, sub, 0);
      if k < 0 then
        -1
      else
        assert OccursAt(s, sub, k + 1);
        k + 1
  }

  /** `String.trim` removes every leading and trailing character whose code is at most U+0020. */
  predicate Trimmed(s: string)
  {
    s == [] || (s[0] > ' ' && s[|s| - 1] > ' ')
  }

  function TrimStart(s: string): (r: string)
    ensures |r| <= |s| && r == s[|s| - |r|..]
    ensures r == [] || r[0] > ' '
    ensures forall i :: 0 <= i < |s| - |r| ==> s[i] <= ' '
  {
    if s == [] || s[0] > ' ' then s else TrimStart(s[1..])
  }

  function TrimEnd(s: string): (r: string)
    ensures |r| <= |s| && r == s[..|r|]
    ensures r == [] || r[|r| - 1] > ' '
    ensures forall i :: |r| <= i < |s| ==> s[i] <= ' '
  {
    if s == [] || s[|s| - 1] > ' ' then s else TrimEnd(s[..|s| - 1])
  }

  /** `String.trim`: `s` without its leading and trailing characters at or below U+0020. */
  function Trim(s: string): (r: string)
    ensures Trimmed(r) && |r| <= |s|
  {
    var t := TrimStart(s);
    var r := TrimEnd(t);
    assert r != [] ==> r[0] == t[0];
    r
  }

  /** Trimming removes characters and never introduces one. */
  lemma TrimKeepsAbsent(s: string, c: char)
    requires c !in s
    ensures c !in Trim(s)
  {
    var t := TrimStart(s);
    assert c !in t;
    assert c !in TrimEnd(t);
  }

  lemma {:induction false} TrimOfTrimmed(s: string)
    requires Trimmed(s)
    ensures Trim(s) == s
  {
  }

  /** Every piece of `s` between occurrences of `c`, empty pieces included. */
  function SplitAll(s: string, c: char): (r: seq<string>)
    ensures |r| >= 1
    ensures forall i :: 0 <= i < |r| ==> c !in r[i]
    ensures c !in s ==> r == [s]
    decreases |s|
  {
    var i := IndexOfChar(s, c);
    if i < 0 then [s] else [s[..i]] + SplitAll(s[i + 1..], c)
  }

  /** `String.join`: the pieces with one `sep` between neighbours. */
  function Join(pieces: seq<string>, sep: string): string
  {
    if pieces == [] then ""
    else if |pieces| == 1 then pieces[0]
    else pieces[0] + sep + Join(pieces[1..], sep)
  }

  lemma {:induction false} SplitAllOfJoin(pieces: seq<string>, c: char)
    requires |pieces| >= 1
    requires forall i :: 0 <= i < |pieces| ==> c !in pieces[i]
    ensures SplitAll(Join(pieces, [c]), c) == pieces
    decreases |pieces|
  {
    if |pieces| == 1 {
    } else {
      var s := Join(pieces, [c]);
      var rest := Join(pieces[1..], [c]);
      assert s == pieces[0] + [c] + rest;
      assert IndexOfChar(s, c) == |pieces[0]| by {
        assert s[|pieces[0]|] == c;
        assert s[..|pieces[0]|] == pieces[0];
      }
      assert s[..|pieces[0]|] == pieces[0];
      assert s[|pieces[0]| + 1..] == rest;
      SplitAllOfJoin(pieces[1..], c);
    }
  }

  function DropTrailingEmpty(pieces: seq<string>): (r: seq<string>)
    ensures |r| <= |pieces| && r == pieces[..|r|]
    ensures r == [] || r[|r| - 1] != []
    ensures forall i :: |r| <= i < |pieces| ==> pieces[i] == []
  {
    if pieces == [] || pieces[|pieces| - 1] != [] then pieces
    else DropTrailingEmpty(pieces[..|pieces| - 1])
  }

  /**
   * `String.split` with a one-character, non-meta delimiter and limit 0: a
   * string without the delimiter is its own single piece; otherwise every
   * piece between delimiters, with trailing empty pieces removed.
   */
  function JavaSplit(s: string, c: char): (r: seq<string>)
    ensures c !in s ==> r == [s]
    ensures forall i :: 0 <= i < |r| ==> c !in r[i]
  {
    if c !in s then [s] else DropTrailingEmpty(SplitAll(s, c))
  }

  function MapTrim(pieces: seq<string>): (r: seq<string>)
    ensures |r| == |pieces|
    ensures forall i :: 0 <= i < |r| ==> r[i] == Trim(pieces[i])
  {
    if pieces == [] then [] else [Trim(pieces[0])] + MapTrim(pieces[1..])
  }

  function DropEmpty(pieces: seq<string>): (r: seq<string>)
    ensures forall i :: 0 <= i < |r| ==> r[i] != [] && r[i] in pieces
  {
    if pieces == [] then []
    else if pieces[0] == [] then DropEmpty(pieces[1..])
    else [pieces[0]] + DropEmpty(pieces[1..])
  }

  /**
   * The `split(delim)` / `map(String::trim)` / `filter(!isEmpty)` pipeline
   * used for authorities, client scopes and requested scopes.
   */
  function TrimmedPieces(s: string, c: char): (r: seq<string>)
    ensures forall i :: 0 <= i < |r| ==> r[i] != [] && Trimmed(r[i]) && c !in r[i]
  {
    var split := JavaSplit(s, c);
    var trimmed := MapTrim(split);
    assert forall i :: 0 <= i < |trimmed| ==> c !in trimmed[i] by {
      forall i | 0 <= i < |trimmed| ensures c !in trimmed[i] {
        TrimKeepsAbsent(split[i], c);
      }
    }
    DropEmpty(trimmed)
  }

  lemma {:induction false} MapTrimOfTrimmed(pieces: seq<string>)
    requires forall i :: 0 <= i < |pieces| ==> Trimmed(pieces[i])
    ensures MapTrim(pieces) == pieces
  {
    forall i | 0 <= i < |pieces| ensures MapTrim(pieces)[i] == pieces[i] {
      TrimOfTrimmed(pieces[i]);
    }
  }

  lemma {:induction false} DropEmptyOfNonEmpty(pieces: seq<string>)
    requires forall i :: 0 <= i < |pieces| ==> pieces[i] != []
    ensures DropEmpty(pieces) == pieces
    decreases |pieces|
  {
    if pieces != [] {
      DropEmptyOfNonEmpty(pieces[1..]);
    }
  }

  /**
   * The pipeline inverts `String.join`: tokens that are non-empty, trimmed and
   * free of the delimiter come back unchanged and in order.
   */
  lemma {:induction false} TrimmedPiecesOfJoin(tokens: seq<string>, c: char)
    requires forall i :: 0 <= i < |tokens| ==> tokens[i] != [] && Trimmed(tokens[i]) && c !in tokens[i]
    ensures TrimmedPieces(Join(tokens, [c]), c) == tokens
  {
    var s := Join(tokens, [c]);
    if tokens == [] {
      assert JavaSplit(s, c) == [""];
      assert MapTrim([""]) == [""];
    } else {
      if |tokens| == 1 {
        assert JavaSplit(s, c) == tokens;
      } else {
        assert s == tokens[0] + [c] + Join(tokens[1..], [c]);
        assert s[|tokens[0]|] == c;
        SplitAllOfJoin(tokens, c);
        assert JavaSplit(s, c) == DropTrailingEmpty(tokens);
        assert DropTrailingEmpty(tokens) == tokens;
      }
      MapTrimOfTrimmed(tokens);
      DropEmptyOfNonEmpty(tokens);
    }
  }

  /** ASCII case folding to lower case; other characters are left as they are. */
  function LowerChar(c: char): (r: char)
    ensures 'A' <= c <= 'Z' ==> 'a' <= r <= 'z' && r as int == c as int + 32
    ensures !('A' <= c <= 'Z') ==> r == c
  {
    if 'A' <= c <= 'Z' then (c as int + 32) as char else c
  }

  function ToLower(s: string): (r: string)
    ensures |r| == |s| && forall i :: 0 <= i < |s| ==> r[i] == LowerChar(s[i])
  {
    if s == [] then [] else [LowerChar(s[0])] + ToLower(s[1..])
  }

  /** `String.equalsIgnoreCase` on ASCII letters. */
  predicate EqualsIgnoreCase(a: string, b: string)
  {
    ToLower(a) == ToLower(b)
  }

  function DigitChar(d: nat): (c: char)
    requires d < 10
    ensures '0' <= c <= '9' && c as int - '0' as int == d
  {
    (d + '0' as int) as char
  }

  predicate IsDigits(s: string)
  {
    forall i :: 0 <= i < |s| ==> '0' <= s[i] <= '9'
  }

  /** `Integer.toString` of a natural number: its decimal digits, most significant first. */
  function NatToString(n: nat): (r: string)
    ensures r != [] && IsDigits(r)
    ensures (|r| == 1) == (n < 10)
  {
    if n < 10 then [DigitChar(n)] else NatToString(n / 10) + [DigitChar(n % 10)]
  }

  /** Different numbers have different decimal forms. */
  lemma {:induction false} NatToStringInjective(a: nat, b: nat)
    requires NatToString(a) == NatToString(b)
    ensures a == b
    decreases a
  {
    var sa, sb := NatToString(a), NatToString(b);
    if a >= 10 && b >= 10 {
      assert sa[|sa| - 1] == sb[|sb| - 1];
      assert sa[..|sa| - 1] == NatToString(a / 10);
      assert sb[..|sb| - 1] == NatToString(b / 10);
      NatToStringInjective(a / 10, b / 10);
    }
  }

  /** `Integer.toString`: a minus sign before the digits of a negative number. */
  function IntToString(n: int): (r: string)
    ensures r != []
    ensures n >= 0 ==> r == NatToString(n)
    ensures n < 0 ==> r == "-" + NatToString(-n)
  {
    if n >= 0 then NatToString(n) else "-" + NatToString(-n)
  }

  /** Joining introduces no character that neither the pieces nor the separator hold. */
  lemma {:induction false} JoinKeepsAbsent(pieces: seq<string>, sep: string, c: char)
    requires c !in sep
    requires forall i :: 0 <= i < |pieces| ==> c !in pieces[i]
    ensures c !in Join(pieces, sep)
    decreases |pieces|
  {
    if |pieces| > 1 {
      JoinKeepsAbsent(pieces[1..], sep, c);
    }
  }

  /** The first piece opens the joined string. */
  lemma JoinStartsWithFirst(pieces: seq<string>, sep: string)
    requires pieces != []
    ensures StartsWith(Join(pieces, sep), pieces[0])
  {
    if |pieces| > 1 {
      var j := Join(pieces, sep);
      assert j == pieces[0] + (sep + Join(pieces[1..], sep));
      assert j[..|pieces[0]|] == pieces[0];
    }
  }

  /** An occurrence inside an occurrence is an occurrence. */
  lemma ContainsTrans(s: string, x: string, y: string)
    requires Contains(s, x) && Contains(x, y)
    ensures Contains(s, y)
  {
    var i :| 0 <= i <= |s| - |x| && OccursAt(s, x, i);
    var j :| 0 <= j <= |x| - |y| && OccursAt(x, y, j);
    forall k | 0 <= k < |y|
      ensures s[i + j..i + j + |y|][k] == y[k]
    {
      assert y[k] == x[j..j + |y|][k] == x[j + k];
      assert x[j + k] == s[i..i + |x|][j + k] == s[i + j + k];
    }
    assert s[i + j..i + j + |y|] == y;
    assert OccursAt(s, y, i + j);
  }

  /** What occurs in a suffix occurs in the whole. */
  lemma ContainsOfSuffix(s: string, k: nat, y: string)
    requires k <= |s| && Contains(s[k..], y)
    ensures Contains(s, y)
  {
    assert OccursAt(s, s[k..], k);
    ContainsTrans(s, s[k..], y);
  }

  /** Every piece of a split occurs in the split string. */
  lemma {:induction false} SplitAllOccur(s: string, c: char)
    ensures forall p :: p in SplitAll(s, c) ==> Contains(s, p)
    decreases |s|
  {
    var i := IndexOfChar(s, c);
    if i < 0 {
      assert SplitAll(s, c) == [s];
      assert OccursAt(s, s, 0);
    } else {
      var rest := s[i + 1..];
      var tail := SplitAll(rest, c);
      SplitAllCons(s, c);
      assert Contains(s, s[..i]) by {
        assert OccursAt(s, s[..i], 0);
      }
      assert forall p :: p in tail ==> Contains(s, p) by {
        SplitAllOccur(rest, c);
        forall p | p in tail ensures Contains(s, p) {
          ContainsOfSuffix(s, i + 1, p);
        }
      }
    }
  }

  /** With `c` present, the first piece ends at its first occurrence and the rest is split again. */
  lemma SplitAllCons(s: string, c: char)
    requires c in s
    ensures var i := IndexOfChar(s, c);
            SplitAll(s, c) == [s[..i]] + SplitAll(s[i + 1..], c)
  {
  }

  /** Every piece of `String.split` occurs in the split string. */
  lemma JavaSplitOccur(s: string, c: char)
    ensures forall q :: q in JavaSplit(s, c) ==> Contains(s, q)
  {
    if c !in s {
      assert OccursAt(s, s, 0);
    } else {
      SplitAllOccur(s, c);
      var pieces := SplitAll(s, c);
      var kept := DropTrailingEmpty(pieces);
      assert JavaSplit(s, c) == kept;
      forall q | q in kept ensures Contains(s, q) {
        var k :| 0 <= k < |kept| && kept[k] == q;
        assert q == pieces[k];
      }
    }
  }

  /** A trimmed string occurs in the original. */
  lemma TrimOccurs(x: string)
    ensures Contains(x, Trim(x))
  {
    var t := TrimStart(x);
    var r := TrimEnd(t);
    assert r == x[|x| - |t|..|x| - |t| + |r|];
    assert OccursAt(x, r, |x| - |t|);
  }

  /** Trimming keeps every character it does not remove in place: the result is a slice. */
  lemma TrimIsSlice(s: string) returns (a: nat)
    ensures a + |Trim(s)| <= |s| && forall i :: 0 <= i < |Trim(s)| ==> Trim(s)[i] == s[a + i]
  {
    var t := TrimStart(s);
    var r := TrimEnd(t);
    a := |s| - |t|;
    assert Trim(s) == r;
    forall i | 0 <= i < |r| ensures r[i] == s[a + i] {
      assert r[i] == t[..|r|][i] == t[i];
      assert t[i] == s[a..][i];
    }
  }

  /** Every piece of the split/trim/filter pipeline occurs in its input. */
  lemma TrimmedPiecesOccur(s: string, c: char)
    ensures forall p :: p in TrimmedPieces(s, c) ==> Contains(s, p)
  {
    var split := JavaSplit(s, c);
    JavaSplitOccur(s, c);
    var trimmed := MapTrim(split);
    forall p | p in TrimmedPieces(s, c) ensures Contains(s, p) {
      assert p in trimmed;
      var k :| 0 <= k < |trimmed| && trimmed[k] == p;
      TrimOccurs(split[k]);
      ContainsTrans(s, split[k], p);
    }
  }
}
