/**
 * The parts of `java.lang.String` and of commons-lang `StringUtils` that the plugin relies on,
 * with their exact Java behaviour: `replace(target, "")` deletes every non-overlapping
 * occurrence scanning left to right, `split(" ")` splits on the space character only and
 * drops trailing empty strings, and `isBlank` uses `Character.isWhitespace`.
 */
module JavaStrings {
  import opened Wrappers
  import opened Sequences

  /**
   * `s.replace(target, "")`. Occurrences are found left to right and do not overlap; with
   * an empty target Java inserts the (empty) replacement between characters, which leaves
   * `s` unchanged.
   */
  function RemoveAll(s: string, target: string): (r: string)
    ensures |r| <= |s|
    ensures |target| > 0 && target <= s ==> |r| <= |s| - |target|
    decreases |s|
  {
    if |target| == 0 || |s| < |target| then s
    else if s[..|target|] == target then RemoveAll(s[|target|..], target)
    else [s[0]] + RemoveAll(s[1..], target)
  }

  /** Removal only deletes characters: the result is a subsequence of the input. */
  lemma {:induction false} RemoveAllDeletesOnly(s: string, target: string)
    ensures IsSubsequence(RemoveAll(s, target), s)
    decreases |s|
  {
    if |target| == 0 || |s| < |target| {
      SubsequenceRefl(s);
    } else if s[..|target|] == target {
      var rest := s[|target|..];
      RemoveAllDeletesOnly(rest, target);
      SuffixSubsequence(RemoveAll(rest, target), s, |target|);
    } else {
      RemoveAllDeletesOnly(s[1..], target);
    }
  }

  /** A subsequence of a suffix of `s` is a subsequence of `s`. */
  lemma {:induction false} SuffixSubsequence<T>(a: seq<T>, s: seq<T>, k: nat)
    requires k <= |s| && IsSubsequence(a, s[k..])
    ensures IsSubsequence(a, s)
    decreases k
  {
    if k > 0 {
      assert s[k..] == s[1..][k - 1..];
      SuffixSubsequence(a, s[1..], k - 1);
      SubsequenceConsRight(a, s[0], s[1..]);
      assert [s[0]] + s[1..] == s;
    }
  }

  /** A target with a character that `s` lacks cannot occur in `s`, so nothing is removed. */
  lemma {:induction false} RemoveAllMissingChar(s: string, target: string, c: char)
    requires c in target && c !in s
    ensures RemoveAll(s, target) == s
    decreases |s|
  {
    if |s| >= |target| {
      RemoveAllMissingChar(s[1..], target, c);
      assert [s[0]] + s[1..] == s;
    }
  }

  /** An occurrence at the very front is removed, and the scan goes on after it. */
  lemma RemoveAllFront(target: string, rest: string)
    requires |target| > 0
    ensures RemoveAll(target + rest, target) == RemoveAll(rest, target)
  {
    assert (target + rest)[..|target|] == target;
    assert (target + rest)[|target|..] == rest;
  }

  /** A string that does not start with the target keeps its first character, and the scan goes on after it. */
  lemma RemoveAllSkipsFirst(c: char, rest: string, target: string)
    requires |target| > 0 && (|rest| + 1 < |target| || ([c] + rest)[..|target|] != target)
    ensures RemoveAll([c] + rest, target) == [c] + RemoveAll(rest, target)
  {
    assert ([c] + rest)[1..] == rest;
    if |rest| + 1 < |target| {
      RemoveAllShort(rest, target);
    }
  }

  /** A string shorter than the target is left as it is. */
  lemma RemoveAllShort(s: string, target: string)
    requires |s| < |target|
    ensures RemoveAll(s, target) == s
  {
  }

  /** A prefix that lacks the target's first character is copied unchanged, and the scan goes on after it. */
  lemma {:induction false} RemoveAllKeepsPrefix(p: string, rest: string, target: string)
    requires |target| > 0 && target[0] !in p
    ensures RemoveAll(p + rest, target) == p + RemoveAll(rest, target)
    decreases |p|
  {
    if |p| > 0 {
      var s := p + rest;
      assert s[0] == p[0] && s[1..] == p[1..] + rest;
      if |s| >= |target| {
        assert s[..|target|][0] != target[0];
      }
      RemoveAllKeepsPrefix(p[1..], rest, target);
      assert [p[0]] + (p[1..] + RemoveAll(rest, target)) == p + RemoveAll(rest, target);
    } else {
      assert p + rest == rest;
    }
  }

  /** `target` occurs in `s` at position `i`. */
  predicate OccursAt(s: string, target: string, i: int) {
    0 <= i && i + |target| <= |s| && s[i..i + |target|] == target
  }

  /** A target that never occurs is not removed: the input comes back unchanged. */
  lemma {:induction false} RemoveAllAbsent(s: string, target: string)
    requires forall i :: !OccursAt(s, target, i)
    ensures RemoveAll(s, target) == s
    decreases |s|
  {
    if |target| > 0 && |s| >= |target| {
      assert !OccursAt(s, target, 0);
      forall i ensures !OccursAt(s[1..], target, i) {
        if OccursAt(s[1..], target, i) {
          assert s[1..][i..i + |target|] == s[i + 1..i + 1 + |target|];
          assert OccursAt(s, target, i + 1);
        }
      }
      RemoveAllAbsent(s[1..], target);
    }
  }

  /** `s` consists of space characters only (vacuously true of the empty string). */
  predicate AllSpaces(s: string) {
    forall i :: 0 <= i < |s| ==> s[i] == ' '
  }

  /** The text of `s` before its first space character: its first `' '`-delimited token. */
  function UpToSpace(s: string): (r: string)
    ensures r <= s
    ensures ' ' !in r
    ensures r == s || s[|r|] == ' '
  {
    if |s| == 0 || s[0] == ' ' then "" else [s[0]] + UpToSpace(s[1..])
  }

  /**
   * The pieces between single spaces, as Java's splitting loop collects them before it trims:
   * one more piece than there are spaces, empty pieces included.
   */
  function Fields(s: string): (r: seq<string>)
    ensures 1 <= |r| <= |s| + 1
    ensures forall i :: 0 <= i < |r| ==> ' ' !in r[i]
  {
    if |s| == 0 then [""]
    else if s[0] == ' ' then [""] + Fields(s[1..])
    else var f := Fields(s[1..]); [[s[0]] + f[0]] + f[1..]
  }

  /** Drops the empty strings at the end, as `split` does with a zero limit. */
  function DropTrailingEmpty(fields: seq<string>): (r: seq<string>)
    ensures r <= fields
    ensures |r| > 0 ==> r[|r| - 1] != ""
    ensures forall i :: |r| <= i < |fields| ==> fields[i] == ""
  {
    if |fields| == 0 || fields[|fields| - 1] != "" then fields
    else DropTrailingEmpty(fields[..|fields| - 1])
  }

  /**
   * `s.split(" ")`. When no space occurs the array is `{s}` itself, even for the empty
   * string; otherwise it is the space-separated pieces with trailing empty pieces dropped.
   */
  function Split(s: string): (r: seq<string>)
    ensures |r| <= |s| + 1
    ensures forall i :: 0 <= i < |r| ==> ' ' !in r[i]
    ensures ' ' in s && |r| > 0 ==> r[|r| - 1] != ""
  {
    if ' ' !in s then [s] else DropTrailingEmpty(Fields(s))
  }

  /** The first piece is the text before the first space. */
  lemma {:induction false} FieldsFirst(s: string)
    ensures Fields(s)[0] == UpToSpace(s)
  {
    if |s| > 0 && s[0] != ' ' {
      FieldsFirst(s[1..]);
    }
  }

  /** Every piece is empty exactly when `s` is made of spaces only. */
  lemma {:induction false} FieldsAllEmpty(s: string)
    ensures (forall i :: 0 <= i < |Fields(s)| ==> Fields(s)[i] == "") <==> AllSpaces(s)
  {
    if |s| > 0 {
      FieldsAllEmpty(s[1..]);
      var f := Fields(s[1..]);
      if s[0] == ' ' {
        assert Fields(s) == [""] + f;
        if AllSpaces(s) {
          assert AllSpaces(s[1..]) by {
            forall i | 0 <= i < |s[1..]| ensures s[1..][i] == ' ' {
              assert s[1..][i] == s[i + 1];
            }
          }
          forall i | 0 <= i < |Fields(s)| ensures Fields(s)[i] == "" {
            if i > 0 {
              assert Fields(s)[i] == f[i - 1];
            }
          }
        } else {
          var j :| 0 <= j < |s| && s[j] != ' ';
          assert s[1..][j - 1] == s[j];
          assert !AllSpaces(s[1..]);
          var k :| 0 <= k < |f| && f[k] != "";
          assert Fields(s)[k + 1] == f[k];
        }
      } else {
        assert Fields(s)[0] != "";
      }
    }
  }

  /** Trimming removes everything exactly when every piece is empty; otherwise the first piece stays. */
  lemma {:induction false} DropTrailingEmptyFirst(fields: seq<string>)
    ensures |DropTrailingEmpty(fields)| == 0 <==> forall i :: 0 <= i < |fields| ==> fields[i] == ""
    ensures |DropTrailingEmpty(fields)| > 0 ==> DropTrailingEmpty(fields)[0] == fields[0]
  {
  }

  /**
   * `s.split(" ")[0]` throws exactly when `s` is non-empty and made of spaces only (the
   * array is then empty); otherwise it is the text before the first space.
   */
  lemma SplitFirstToken(s: string)
    ensures |Split(s)| == 0 <==> |s| > 0 && AllSpaces(s)
    ensures |Split(s)| > 0 ==> Split(s)[0] == UpToSpace(s)
  {
    FieldsFirst(s);
    if ' ' in s {
      FieldsAllEmpty(s);
      DropTrailingEmptyFirst(Fields(s));
    } else if |s| > 0 {
      assert s[0] != ' ';
    }
  }

  /**
   * `Character.isWhitespace` as of Java 9 (Unicode 8 and later): Unicode space separators
   * other than the non-breaking ones, and the ASCII controls it lists. Java 8 also counted
   * U+180E MONGOLIAN VOWEL SEPARATOR, which is not included here.
   */
  predicate IsJavaWhitespace(c: char) {
    c == ' ' || '\t' <= c <= '\r' || '\U{1C}' <= c <= '\U{1F}'
    || c == '\U{1680}' || '\U{2000}' <= c <= '\U{2006}' || '\U{2008}' <= c <= '\U{200A}'
    || c == '\U{2028}' || c == '\U{2029}' || c == '\U{205F}' || c == '\U{3000}'
  }

  /** `StringUtils.isBlank`: null, empty, or whitespace only. */
  predicate IsBlank(cs: Option<string>) {
    cs.None? || forall i :: 0 <= i < |cs.value| ==> IsJavaWhitespace(cs.value[i])
  }

  /** `StringUtils.defaultIfBlank(str, defaultStr)`. */
  function DefaultIfBlank(str: Option<string>, defaultStr: Option<string>): (r: Option<string>)
    ensures !IsBlank(str) ==> r == str
    ensures IsBlank(str) ==> r == defaultStr
  {
    if IsBlank(str) then defaultStr else str
  }

  /**
   * What `isBlank` treats as blank: `null`, the empty string, and runs of spaces, tabs, line
   * breaks or ideographic spaces; a non-breaking space is not whitespace, and neither is text
   * with a visible character in it.
   */
  lemma BlankExamples()
    ensures IsBlank(None) && IsBlank(Some(""))
    ensures IsBlank(Some(" \t\r\n")) && IsBlank(Some("\U{3000}"))
    ensures !IsBlank(Some("\U{00A0}")) && !IsBlank(Some(" x "))
    ensures DefaultIfBlank(Some(" \t"), Some("UTF-8")) == Some("UTF-8")
    ensures DefaultIfBlank(Some("\U{00A0}"), Some("UTF-8")) == Some("\U{00A0}")
  {
    assert " x "[1] == 'x';
    assert "\U{00A0}"[0] == '\U{00A0}';
  }
}
