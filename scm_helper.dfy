/**
 * `SCMHelper`: turning the unified diff written by the SCM plugin's `diff` goal into the
 * list of changed files. Both copies of the plugin share `parseLine` and the set building;
 * they differ only in where they look for the diff file (`DiffFilePath`).
 */
module ScmHelper {
  import opened Wrappers
  import opened Sequences
  import opened JavaStrings
  import opened Copies

  /** `FILE_IDENTIFIERS`: the markers of a file-header line, tried in this order. */
  const FileIdentifiers: seq<string> := ["--- a/", "diff --git a/"]

  /** `TO_REMOVE`: the four source roots, built from the platform's separator character. */
  function SourceRoots(sep: char): (r: seq<string>)
    ensures |r| == 4
    ensures forall i :: 0 <= i < |r| ==> "src" + [sep] <= r[i] && r[i][|r[i]| - 1] == sep
    ensures forall i, j :: 0 <= i < j < |r| ==> r[i] != r[j]
  {
    var roots :=
      [ "src" + [sep] + "main" + [sep] + "java" + [sep],
        "src" + [sep] + "main" + [sep] + "resources" + [sep],
        "src" + [sep] + "test" + [sep] + "java" + [sep],
        "src" + [sep] + "test" + [sep] + "resources" + [sep] ];
    assert |roots[0]| == |roots[2]| < |roots[1]| == |roots[3]|;
    assert roots[0][4] == roots[1][4] == 'm' && roots[2][4] == roots[3][4] == 't';
    roots
  }

  /**
   * What `parseLine` does with one line: `NoFile` is `Optional.empty()`, `File(path)` is
   * `Optional.of(new File(path))`, and `SplitFailure` is the `ArrayIndexOutOfBoundsException`
   * that `split(" ")[0]` throws on an empty array.
   */
  datatype LineResult = NoFile | File(path: string) | SplitFailure

  /** The exception that escapes the set building when one line throws. */
  datatype ScmError = ArrayIndexOutOfBounds

  /** The contents of the diff file: it cannot be opened, or it is a sequence of lines. */
  datatype DiffFile = Unreadable | Lines(lines: seq<string>)

  /** `markers[k]` is the first of `markers` that `line` starts with. */
  predicate FirstMatchAt(line: string, markers: seq<string>, k: int) {
    0 <= k < |markers| && markers[k] <= line && forall j :: 0 <= j < k ==> !(markers[j] <= line)
  }

  /** The first of `markers`, in their order, that `line` starts with. */
  function FirstPrefix(line: string, markers: seq<string>): (r: Option<string>)
    ensures r.None? <==> forall k :: 0 <= k < |markers| ==> !(markers[k] <= line)
    ensures r.Some? ==> exists k :: FirstMatchAt(line, markers, k) && markers[k] == r.value
  {
    if |markers| == 0 then None
    else if markers[0] <= line then
      assert FirstMatchAt(line, markers, 0);
      Some(markers[0])
    else
      var r := FirstPrefix(line, markers[1..]);
      assert r.Some? ==> exists k :: FirstMatchAt(line, markers, k) && markers[k] == r.value by {
        if r.Some? {
          var k :| FirstMatchAt(line, markers[1..], k) && markers[1..][k] == r.value;
          forall j | 0 <= j < k + 1 ensures !(markers[j] <= line) {
            if j > 0 { assert markers[j] == markers[1..][j - 1]; }
          }
          assert FirstMatchAt(line, markers, k + 1);
        }
      }
      r
  }

  /** The marker found at index `k` after all earlier ones failed is the first prefix. */
  lemma FirstPrefixAt(line: string, markers: seq<string>, k: int)
    requires FirstMatchAt(line, markers, k)
    ensures FirstPrefix(line, markers) == Some(markers[k])
  {
    var r := FirstPrefix(line, markers);
    var k' :| FirstMatchAt(line, markers, k') && markers[k'] == r.value;
    assert k' == k;
  }

  /** Applies `s.replace(removals[i], "")` for every `i`, in order, one pass each. */
  function RemoveEach(s: string, removals: seq<string>): (r: string)
    ensures |r| <= |s|
  {
    if |removals| == 0 then s
    else RemoveAll(RemoveEach(s, removals[..|removals| - 1]), removals[|removals| - 1])
  }

  /** Removing the roots only deletes characters of the token. */
  lemma {:induction false} RemoveEachDeletesOnly(s: string, removals: seq<string>)
    ensures IsSubsequence(RemoveEach(s, removals), s)
  {
    if |removals| == 0 {
      SubsequenceRefl(s);
    } else {
      var before := RemoveEach(s, removals[..|removals| - 1]);
      RemoveEachDeletesOnly(s, removals[..|removals| - 1]);
      RemoveAllDeletesOnly(before, removals[|removals| - 1]);
      SubsequenceTrans(RemoveEach(s, removals), before, s);
    }
  }

  /**
   * The meaning of `parseLine` for one line, stated with the first space-delimited token
   * rather than with `split`: take the first marker the line starts with, remove every
   * occurrence of it from the line, keep the text before the first space and remove the
   * four roots from it. A remainder made of spaces only makes `split(" ")[0]` throw.
   */
  function HeaderPath(line: string, sep: char): (r: LineResult)
    ensures r.NoFile? <==> forall k :: 0 <= k < |FileIdentifiers| ==> !(FileIdentifiers[k] <= line)
    ensures r.File? ==> |r.path| <= |line|
  {
    match FirstPrefix(line, FileIdentifiers)
    case None => NoFile
    case Some(marker) =>
      var rest := RemoveAll(line, marker);
      if |rest| > 0 && AllSpaces(rest) then SplitFailure
      else File(RemoveEach(UpToSpace(rest), SourceRoots(sep)))
  }

  /** `parseLine(line, log)`: loops over the markers, and over the roots reassigning `filePart`. */
  method ParseLine(line: string, sep: char) returns (r: LineResult)
    ensures r == HeaderPath(line, sep)
  {
    for k := 0 to |FileIdentifiers|
      invariant forall j :: 0 <= j < k ==> !(FileIdentifiers[j] <= line)
    {
      var fileIdentifier := FileIdentifiers[k];
      if fileIdentifier <= line {
        var toParse := RemoveAll(line, fileIdentifier);
        HeaderPathAt(line, k, sep);
        var parts := Split(toParse);
        SplitFirstToken(toParse);
        if |parts| == 0 {
          return SplitFailure;
        }
        var filePart := RemoveRoots(parts[0], sep);
        return File(filePart);
      }
    }
    assert FirstPrefix(line, FileIdentifiers).None?;
    return NoFile;
  }

  /** The loop of `parseLine` that reassigns `filePart` once per root, in `TO_REMOVE` order. */
  method RemoveRoots(token: string, sep: char) returns (filePart: string)
    ensures filePart == RemoveEach(token, SourceRoots(sep))
  {
    filePart := token;
    var toRemove := SourceRoots(sep);
    for n := 0 to |toRemove|
      invariant filePart == RemoveEach(token, toRemove[..n])
    {
      assert toRemove[..n + 1][..n] == toRemove[..n];
      filePart := RemoveAll(filePart, toRemove[n]);
    }
    assert toRemove[..|toRemove|] == toRemove;
  }

  /** What a line yields once marker `k` is the first one it starts with. */
  lemma HeaderPathAt(line: string, k: int, sep: char)
    requires 0 <= k < |FileIdentifiers| && FileIdentifiers[k] <= line
    requires forall j :: 0 <= j < k ==> !(FileIdentifiers[j] <= line)
    ensures var rest := RemoveAll(line, FileIdentifiers[k]);
            HeaderPath(line, sep)
            == if |rest| > 0 && AllSpaces(rest) then SplitFailure
               else File(RemoveEach(UpToSpace(rest), SourceRoots(sep)))
  {
    assert FirstMatchAt(line, FileIdentifiers, k);
    FirstPrefixAt(line, FileIdentifiers, k);
  }

  /** A line that starts with neither marker yields no file, and a line that starts with one always yields something. */
  lemma NonHeaderLineYieldsNoFile(line: string, sep: char)
    ensures HeaderPath(line, sep) == NoFile <==> !("--- a/" <= line) && !("diff --git a/" <= line)
  {
    if "--- a/" <= line {
      assert FirstMatchAt(line, FileIdentifiers, 0);
      FirstPrefixAt(line, FileIdentifiers, 0);
    } else if "diff --git a/" <= line {
      assert FirstMatchAt(line, FileIdentifiers, 1);
      FirstPrefixAt(line, FileIdentifiers, 1);
    }
  }

  /** No line starts with both markers, so the order in which they are tried never changes a result. */
  lemma MarkersExclusive(line: string)
    ensures !("--- a/" <= line && "diff --git a/" <= line)
    ensures FirstPrefix(line, [FileIdentifiers[1], FileIdentifiers[0]]) == FirstPrefix(line, FileIdentifiers)
  {
    if |line| > 0 {
      assert "--- a/" <= line ==> line[0] == '-';
      assert "diff --git a/" <= line ==> line[0] == 'd';
    }
    var swapped := [FileIdentifiers[1], FileIdentifiers[0]];
    assert swapped[1..] == [FileIdentifiers[0]] && FileIdentifiers[1..] == [FileIdentifiers[1]];
    assert swapped[1..][1..] == [] && FileIdentifiers[1..][1..] == [];
  }

  /**
   * A file found on a header line contains no space character, is a subsequence of the
   * line's first token once every occurrence of the marker is removed, and is shorter than
   * the line by at least the marker's length.
   */
  lemma {:induction false} HeaderPathShape(line: string, sep: char)
    requires HeaderPath(line, sep).File?
    ensures ' ' !in HeaderPath(line, sep).path
    ensures exists k :: 0 <= k < |FileIdentifiers| && FileIdentifiers[k] <= line
              && IsSubsequence(HeaderPath(line, sep).path, UpToSpace(RemoveAll(line, FileIdentifiers[k])))
              && |HeaderPath(line, sep).path| <= |line| - |FileIdentifiers[k]|
  {
    var marker := FirstPrefix(line, FileIdentifiers).value;
    var token := UpToSpace(RemoveAll(line, marker));
    var path := HeaderPath(line, sep).path;
    RemoveEachDeletesOnly(token, SourceRoots(sep));
    SubsequenceBounds(path, token);
    var k :| FirstMatchAt(line, FileIdentifiers, k) && FileIdentifiers[k] == marker;
  }

  /** `--- a/ ` has a remainder of one space: `split(" ")[0]` throws. */
  lemma ShortSplitFailureExample()
    ensures HeaderPath("--- a/ ", '/') == SplitFailure
  {
    assert "--- a/ " == FileIdentifiers[0] + " ";
    HeaderWithMarker(0, " ", '/');
  }

  /** `diff --git a/   ` has a remainder of three spaces: `split(" ")[0]` throws. */
  lemma GitSplitFailureExample()
    ensures HeaderPath("diff --git a/   ", '/') == SplitFailure
  {
    assert "diff --git a/   " == FileIdentifiers[1] + "   ";
    HeaderWithMarker(1, "   ", '/');
  }

  /** `--- a/` has an empty remainder: `split(" ")` is `{""}` and the path is empty. */
  lemma EmptyRemainderExample()
    ensures HeaderPath("--- a/", '/') == File("")
  {
    assert "--- a/" == FileIdentifiers[0] + "";
    HeaderWithMarker(0, "", '/');
    RootsRemovedInOrder("", '/');
  }

  /** The text before the first space, when that space is at index `n`. */
  lemma UpToSpaceAt(s: string, n: int)
    requires 0 <= n < |s| && s[n] == ' ' && ' ' !in s[..n]
    ensures UpToSpace(s) == s[..n]
  {
    var r := UpToSpace(s);
    assert s[..n][..|r|] == r;
  }

  /** A string without spaces is its own first token. */
  lemma UpToSpaceNoSpace(s: string)
    requires ' ' !in s
    ensures UpToSpace(s) == s
  {
  }

  /** With `/` as separator the roots are the usual Maven source directories. */
  lemma SourceRootsSlash()
    ensures SourceRoots('/')[0] == "src/main/java/"
    ensures SourceRoots('/')[1] == "src/main/resources/"
    ensures SourceRoots('/')[2] == "src/test/java/"
    ensures SourceRoots('/')[3] == "src/test/resources/"
  {
    var roots := SourceRoots('/');
    assert roots[0] == "src" + "/" + "main" + "/" + "java" + "/";
    assert roots[1] == "src" + "/" + "main" + "/" + "resources" + "/";
    assert roots[2] == "src" + "/" + "test" + "/" + "java" + "/";
    assert roots[3] == "src" + "/" + "test" + "/" + "resources" + "/";
  }

  /** The roots are removed in the order main/java, main/resources, test/java, test/resources, one full pass each. */
  lemma RootsRemovedInOrder(token: string, sep: char)
    ensures var roots := SourceRoots(sep);
      RemoveEach(token, roots) == RemoveAll(RemoveAll(RemoveAll(RemoveAll(token, roots[0]), roots[1]), roots[2]), roots[3])
  {
    var roots := SourceRoots(sep);
    assert roots[..1][..0] == [];
    assert RemoveEach(token, roots[..1]) == RemoveAll(token, roots[0]);
    assert roots[..2][..1] == roots[..1];
    assert RemoveEach(token, roots[..2]) == RemoveAll(RemoveEach(token, roots[..1]), roots[1]);
    assert roots[..3][..2] == roots[..2];
    assert RemoveEach(token, roots[..3]) == RemoveAll(RemoveEach(token, roots[..2]), roots[2]);
    assert roots[..3] == roots[..|roots| - 1];
  }

  /**
   * On a line that starts with marker `k` and has no other occurrence of it, the marker is
   * removed once and the first token of the remainder, with the roots removed, is the path.
   */
  lemma HeaderWithMarker(k: int, rest: string, sep: char)
    requires 0 <= k < |FileIdentifiers| && FileIdentifiers[k][0] !in rest
    ensures HeaderPath(FileIdentifiers[k] + rest, sep)
      == if |rest| > 0 && AllSpaces(rest) then SplitFailure
         else File(RemoveEach(UpToSpace(rest), SourceRoots(sep)))
  {
    MarkerDecides(k, rest);
    MarkerRemovedOnce(k, rest);
  }

  /** A line made of marker `k` and more text is decided by marker `k`. */
  lemma MarkerDecides(k: int, rest: string)
    requires 0 <= k < |FileIdentifiers|
    ensures FirstPrefix(FileIdentifiers[k] + rest, FileIdentifiers) == Some(FileIdentifiers[k])
  {
    var line := FileIdentifiers[k] + rest;
    assert FileIdentifiers[k] <= line;
    if k == 1 {
      assert line[0] == 'd';
      assert !(FileIdentifiers[0] <= line);
    }
    assert FirstMatchAt(line, FileIdentifiers, k);
    FirstPrefixAt(line, FileIdentifiers, k);
  }

  /** The marker occurs once at the front of the line when the rest lacks its first character. */
  lemma MarkerRemovedOnce(k: int, rest: string)
    requires 0 <= k < |FileIdentifiers| && FileIdentifiers[k][0] !in rest
    ensures RemoveAll(FileIdentifiers[k] + rest, FileIdentifiers[k]) == rest
  {
    var marker := FileIdentifiers[k];
    RemoveAllFront(marker, rest);
    RemoveAllMissingChar(rest, marker, marker[0]);
  }

  /** The characters that decide the first example below. */
  lemma ShortExampleCharacters()
    ensures '-' !in "src/main/java/" && '-' !in "x/Y.java"
    ensures ' ' !in "src/main/java/" && ' ' !in "x/Y.java"
    ensures 's' !in "x/Y.java"
  {
  }

  /** The characters that decide the second example below: the markers' first letters. */
  lemma GitExampleMarkerCharacters()
    ensures 'd' !in "src/test/resources/" && 'd' !in "z.txt" && 'd' !in " b/src/test/resources/z.txt"
  {
  }

  /** The characters that decide the second example below: spaces and the roots' letters. */
  lemma GitExampleRootCharacters()
    ensures ' ' !in "src/test/resources/" && ' ' !in "z.txt"
    ensures 'm' !in "src/test/resources/" && 'm' !in "z.txt" && 'j' !in "src/test/resources/" && 'j' !in "z.txt"
    ensures 's' !in "z.txt"
  {
  }

  /** `--- a/src/main/java/x/Y.java` names `x/Y.java`. */
  lemma ShortHeaderExample()
    ensures HeaderPath("--- a/" + "src/main/java/" + "x/Y.java", '/') == File("x/Y.java")
  {
    var root, name := "src/main/java/", "x/Y.java";
    var rest := root + name;
    ShortExampleCharacters();
    assert "--- a/" + root + name == FileIdentifiers[0] + rest;
    HeaderWithMarker(0, rest, '/');
    UpToSpaceNoSpace(rest);
    assert rest[0] != ' ';
    SourceRootsSlash();
    RootsRemovedInOrder(rest, '/');
    RemoveAllFront(root, name);
    RemoveAllMissingChar(name, root, 's');
    RemoveAllMissingChar(name, "src/main/resources/", 's');
    RemoveAllMissingChar(name, "src/test/java/", 's');
    RemoveAllMissingChar(name, "src/test/resources/", 's');
  }

  /** `diff --git a/src/test/resources/z.txt b/src/test/resources/z.txt` names `z.txt`: the second path is cut off at the space. */
  lemma GitHeaderExample()
    ensures HeaderPath("diff --git a/" + "src/test/resources/" + "z.txt" + " b/src/test/resources/z.txt", '/') == File("z.txt")
  {
    var root, name, second := "src/test/resources/", "z.txt", " b/src/test/resources/z.txt";
    var token := root + name;
    var rest := token + second;
    GitExampleMarkerCharacters();
    GitExampleRootCharacters();
    assert "diff --git a/" + root + name + second == FileIdentifiers[1] + rest;
    HeaderWithMarker(1, rest, '/');
    assert rest[..|token|] == token && rest[|token|] == ' ';
    UpToSpaceAt(rest, |token|);
    assert rest[0] != ' ';
    SourceRootsSlash();
    RootsRemovedInOrder(token, '/');
    RemoveAllMissingChar(token, "src/main/java/", 'm');
    RemoveAllMissingChar(token, "src/main/resources/", 'm');
    RemoveAllMissingChar(token, "src/test/java/", 'j');
    RemoveAllFront(root, name);
    RemoveAllMissingChar(name, root, 's');
  }

  /** The characters that decide the third and fourth examples below. */
  lemma ModuleExampleCharacters()
    ensures '-' !in "core/" && ' ' !in "core/" && 's' !in "core/"
    ensures 's' !in "core/" + "x/Y.java"
    ensures '-' !in "x\ty" && ' ' !in "x\ty" && 's' !in "x\ty"
  {
  }

  /**
   * `--- a/core/src/main/java/x/Y.java` names `core/x/Y.java`: a source root is removed
   * wherever it occurs, so a module's directory stays in front of the package path.
   */
  lemma ModuleHeaderExample()
    ensures HeaderPath("--- a/" + "core/" + "src/main/java/" + "x/Y.java", '/') == File("core/" + "x/Y.java")
  {
    var dir, root, name := "core/", "src/main/java/", "x/Y.java";
    var rest := dir + (root + name);
    ShortExampleCharacters();
    ModuleExampleCharacters();
    assert "--- a/" + dir + root + name == FileIdentifiers[0] + rest;
    assert '-' !in rest && ' ' !in rest by {
      assert forall c :: c in rest ==> c in dir || c in root || c in name;
    }
    HeaderWithMarker(0, rest, '/');
    UpToSpaceNoSpace(rest);
    assert rest[0] != ' ';
    SourceRootsSlash();
    RootsRemovedInOrder(rest, '/');
    RemoveAllKeepsPrefix(dir, root + name, root);
    RemoveAllFront(root, name);
    RemoveAllMissingChar(name, root, 's');
    var path := dir + name;
    RemoveAllMissingChar(path, "src/main/resources/", 's');
    RemoveAllMissingChar(path, "src/test/java/", 's');
    RemoveAllMissingChar(path, "src/test/resources/", 's');
  }

  /** The path ends at a space only: a tab (as in `--- a/x<TAB>y`) stays part of the file name. */
  lemma TabHeaderExample()
    ensures HeaderPath("--- a/" + "x\ty", '/') == File("x\ty")
  {
    var rest := "x\ty";
    ModuleExampleCharacters();
    HeaderWithMarker(0, rest, '/');
    UpToSpaceNoSpace(rest);
    SourceRootsSlash();
    RootsRemovedInOrder(rest, '/');
    RemoveAllMissingChar(rest, "src/main/java/", 's');
    RemoveAllMissingChar(rest, "src/main/resources/", 's');
    RemoveAllMissingChar(rest, "src/test/java/", 's');
    RemoveAllMissingChar(rest, "src/test/resources/", 's');
  }

  /** The characters that decide the fifth example below: no marker letter and no space. */
  lemma SurvivorExampleLineCharacters()
    ensures '-' !in "s" + "src/main/java/" + "rc/main/java/x" && ' ' !in "s" + "src/main/java/" + "rc/main/java/x"
  {
    var line := "s" + "src/main/java/" + "rc/main/java/x";
    assert forall c :: c in line ==> c in "s" || c in "src/main/java/" || c in "rc/main/java/x";
  }

  /** The characters that decide the fifth example below: the roots' letters. */
  lemma SurvivorExampleRootCharacters()
    ensures 's' !in "rc/main/java/x" && 'u' !in "src/main/java/x" && 't' !in "src/main/java/x"
    ensures "s" + "rc/main/java/x" == "src/main/java/x"
  {
  }

  /** The pass for `src/main/java/` over `ssrc/main/java/rc/main/java/x` joins a new `src/main/java/`. */
  lemma SurvivorFirstPass()
    ensures RemoveAll("s" + "src/main/java/" + "rc/main/java/x", "src/main/java/") == "src/main/java/x"
  {
    var root, tail := "src/main/java/", "rc/main/java/x";
    var rest := root + tail;
    SurvivorExampleRootCharacters();
    assert "s" + root + tail == ['s'] + rest;
    assert (['s'] + rest)[..|root|][1] != root[1];
    RemoveAllSkipsFirst('s', rest, root);
    RemoveAllFront(root, tail);
    RemoveAllMissingChar(tail, root, 's');
  }

  /**
   * One pass per root does not leave a root-free path: in
   * `--- a/ssrc/main/java/rc/main/java/x` removing the inner `src/main/java/` joins the text
   * around it into a new `src/main/java/`, which stays at the front of the result.
   */
  lemma RootSurvivesOnePassExample()
    ensures HeaderPath("--- a/" + "s" + "src/main/java/" + "rc/main/java/x", '/') == File("src/main/java/x")
  {
    var rest := "s" + "src/main/java/" + "rc/main/java/x";
    var survivor := "src/main/java/x";
    SurvivorExampleLineCharacters();
    SurvivorExampleRootCharacters();
    assert "--- a/" + "s" + "src/main/java/" + "rc/main/java/x" == FileIdentifiers[0] + rest;
    HeaderWithMarker(0, rest, '/');
    UpToSpaceNoSpace(rest);
    assert rest[0] != ' ';
    SourceRootsSlash();
    RootsRemovedInOrder(rest, '/');
    SurvivorFirstPass();
    RemoveAllMissingChar(survivor, "src/main/resources/", 'u');
    RemoveAllMissingChar(survivor, "src/test/java/", 't');
    RemoveAllMissingChar(survivor, "src/test/resources/", 't');
  }

  /**
   * The set that `getModifiedFiles(File, Log)` builds from the `parseLine` results, in line
   * order: every path found, duplicates collapsed. A line that throws ends the stream, and
   * the exception escapes (only `IOException` is caught).
   */
  function Collect(results: seq<LineResult>): (r: Result<set<string>, ScmError>)
    ensures r.Success? <==> SplitFailure !in results
    ensures r.Success? ==> forall p :: p in r.value <==> File(p) in results
  {
    if |results| == 0 then Success({})
    else
      var n := |results| - 1;
      assert results == results[..n] + [results[n]];
      match Collect(results[..n])
      case Failure(e) => Failure(e)
      case Success(paths) =>
        match results[n]
        case NoFile => Success(paths)
        case File(p) => Success(paths + {p})
        case SplitFailure => Failure(ArrayIndexOutOfBounds)
  }

  /** The result of `parseLine` for each line. */
  function ParseAll(lines: seq<string>, sep: char): (r: seq<LineResult>)
    ensures |r| == |lines| && forall i :: 0 <= i < |lines| ==> r[i] == HeaderPath(lines[i], sep)
  {
    seq(|lines|, i requires 0 <= i < |lines| => HeaderPath(lines[i], sep))
  }

  /**
   * The collection over the diff's lines: it succeeds exactly when no line throws, and then
   * holds exactly the paths that some line names.
   */
  function CollectPaths(lines: seq<string>, sep: char): (r: Result<set<string>, ScmError>)
    ensures r.Success? <==> forall i :: 0 <= i < |lines| ==> HeaderPath(lines[i], sep) != SplitFailure
    ensures r.Success? ==> forall p :: p in r.value <==> exists i :: 0 <= i < |lines| && HeaderPath(lines[i], sep) == File(p)
  {
    var results := ParseAll(lines, sep);
    assert SplitFailure in results ==> exists i :: 0 <= i < |lines| && HeaderPath(lines[i], sep) == SplitFailure;
    assert forall p :: File(p) in results <==> exists i :: 0 <= i < |lines| && HeaderPath(lines[i], sep) == File(p) by {
      forall p ensures File(p) in results <==> exists i :: 0 <= i < |lines| && HeaderPath(lines[i], sep) == File(p) {
        if exists i :: 0 <= i < |lines| && HeaderPath(lines[i], sep) == File(p) {
          var i :| 0 <= i < |lines| && HeaderPath(lines[i], sep) == File(p);
          assert results[i] == File(p);
        }
      }
    }
    Collect(results)
  }

  /**
   * `getModifiedFiles(File, Log)`: opens the diff, adds the result of `parseLine` for each
   * line into a `HashSet`, and returns the empty set when the file cannot be opened.
   */
  method ModifiedFileSet(diff: DiffFile, sep: char) returns (r: Result<set<string>, ScmError>)
    ensures diff.Unreadable? ==> r == Success({})
    ensures diff.Lines? ==> r == CollectPaths(diff.lines, sep)
  {
    var toReturn: set<string> := {};
    if diff.Unreadable? {
      return Success(toReturn);
    }
    var lines := diff.lines;
    ghost var results := ParseAll(lines, sep);
    for i := 0 to |lines|
      invariant Collect(results[..i]) == Success(toReturn)
    {
      assert results[..i + 1][..i] == results[..i];
      var parsed := ParseLine(lines[i], sep);
      assert parsed == results[i];
      match parsed {
        case NoFile =>
        case File(p) => toReturn := toReturn + {p};
        case SplitFailure =>
          KeepsFailing(results, i + 1);
          assert results[..|results|] == results;
          return Failure(ArrayIndexOutOfBounds);
      }
    }
    assert results[..|lines|] == results;
    return Success(toReturn);
  }

  /** Once a line has thrown, the lines after it do not matter. */
  lemma {:induction false} KeepsFailing(results: seq<LineResult>, n: int)
    requires 0 <= n <= |results| && Collect(results[..n]).Failure?
    ensures Collect(results) == Collect(results[..n])
    decreases |results| - n
  {
    if n < |results| {
      assert results[..n + 1][..n] == results[..n];
      KeepsFailing(results, n + 1);
    } else {
      assert results[..n] == results;
    }
  }

  /**
   * The collected set depends only on which lines occur, not on their order or on how
   * often they repeat: a diff that names a file in several hunks lists it once.
   */
  lemma CollectPathsIgnoresOrder(lines: seq<string>, others: seq<string>, sep: char)
    requires forall l :: l in lines <==> l in others
    ensures CollectPaths(lines, sep) == CollectPaths(others, sep)
  {
    CollectPathsMonotone(lines, others, sep);
    CollectPathsMonotone(others, lines, sep);
    var a, b := CollectPaths(lines, sep), CollectPaths(others, sep);
    if a.Success? {
      assert a.value == b.value;
    } else {
      assert a.error == ArrayIndexOutOfBounds == b.error;
    }
  }

  /** More lines can only add files, or make the collection throw. */
  lemma CollectPathsMonotone(lines: seq<string>, others: seq<string>, sep: char)
    requires forall l :: l in lines ==> l in others
    ensures CollectPaths(others, sep).Success? ==> CollectPaths(lines, sep).Success?
    ensures CollectPaths(others, sep).Success? ==> CollectPaths(lines, sep).value <= CollectPaths(others, sep).value
  {
    var a, b := CollectPaths(lines, sep), CollectPaths(others, sep);
    if b.Success? {
      forall i | 0 <= i < |lines| ensures HeaderPath(lines[i], sep) != SplitFailure {
        assert lines[i] in others;
        var j :| 0 <= j < |others| && others[j] == lines[i];
      }
      forall p | p in a.value ensures p in b.value {
        var i :| 0 <= i < |lines| && HeaderPath(lines[i], sep) == File(p);
        assert lines[i] in others;
        var j :| 0 <= j < |others| && others[j] == lines[i];
      }
    }
  }

  /**
   * `new ArrayList<>(set)`: every path of the set exactly once. The order is that of the
   * `HashSet`'s iteration, which is unspecified, so any order may come out.
   */
  method ListOf(paths: set<string>) returns (list: seq<string>)
    ensures forall p :: p in list <==> p in paths
    ensures forall i, j :: 0 <= i < j < |list| ==> list[i] != list[j]
    ensures |list| == |paths|
  {
    list := [];
    var remaining := paths;
    while remaining != {}
      invariant remaining <= paths
      invariant forall p :: p in list <==> p in paths && p !in remaining
      invariant forall i, j :: 0 <= i < j < |list| ==> list[i] != list[j]
      invariant |list| + |remaining| == |paths|
      decreases |remaining|
    {
      var p :| p in remaining;
      list := list + [p];
      remaining := remaining - {p};
    }
  }

  /** The project that the goal runs for: its artifact id and its base directory's path. */
  datatype Project = Project(artifactId: string, basedir: string)

  /**
   * Where the diff file is looked for. The org.kie copy opens `artifactId + ".diff"`
   * relative to the working directory; the net.cardosi copy puts `basedir.getPath()` and
   * `File.separator` in front of that name.
   */
  function DiffFilePath(copy: Copy, project: Project, sep: char): (path: string)
    ensures |path| >= |project.artifactId| + 5
    ensures path[|path| - |project.artifactId| - 5..] == project.artifactId + ".diff"
    ensures copy == OrgKie ==> |path| == |project.artifactId| + 5
    ensures copy == NetCardosi ==> |path| == |project.basedir| + 1 + |project.artifactId| + 5
                                   && path[..|project.basedir|] == project.basedir && path[|project.basedir|] == sep
  {
    var diffFileName := project.artifactId + ".diff";
    match copy
    case OrgKie => diffFileName
    case NetCardosi => project.basedir + [sep] + diffFileName
  }

  /**
   * The public `getModifiedFiles` after the SCM `diff` goal has run: `files` maps each path
   * that can be opened to its lines. The result lists each changed file once.
   */
  method GetModifiedFiles(copy: Copy, project: Project, sep: char, files: map<string, seq<string>>)
    returns (r: Result<seq<string>, ScmError>)
    ensures var path := DiffFilePath(copy, project, sep);
      path !in files ==> r == Success([])
    ensures var path := DiffFilePath(copy, project, sep);
      path in files ==> (r.Success? <==> CollectPaths(files[path], sep).Success?)
    ensures var path := DiffFilePath(copy, project, sep);
      path in files && r.Success? ==> forall p :: p in r.value <==> p in CollectPaths(files[path], sep).value
    ensures r.Success? ==> forall i, j :: 0 <= i < j < |r.value| ==> r.value[i] != r.value[j]
  {
    var diffFile := DiffFilePath(copy, project, sep);
    var diff := if diffFile in files then Lines(files[diffFile]) else Unreadable;
    var modified := ModifiedFileSet(diff, sep);
    if modified.Failure? {
      return Failure(modified.error);
    }
    var list := ListOf(modified.value);
    return Success(list);
  }
}
