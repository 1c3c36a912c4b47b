# codeformatter-maven-plugin: changed-file extraction and configuration mapping

This project models the core of the codeformatter Maven plugin in Dafny and proves
properties of that model. The plugin formats only the files a change touches. It has two
pieces of logic, each present in two near-identical copies (packages
`org.kie.maven.codeformatter.plugin` and `net.cardosi.maven.codeformatter.plugin`):

- **`SCMHelper`** reads the unified diff left by the SCM plugin's `diff` goal. It finds the
  file-header lines (`--- a/…` or `diff --git a/…`) and turns each into a path:
  1. every occurrence of the marker is removed;
  2. the text up to the first space is kept;
  3. the four Maven source roots (`src/main/java/`, `src/main/resources/`, `src/test/java/`,
     `src/test/resources/`) are deleted wherever they occur.

  The paths are collected into a set and returned as a list.
- **`ConfigurationHelper`** builds the configuration handed to the formatter and to the
  import sorter:
  1. it keeps the plugin's own `<configuration>` children whose names are in the tool's
     parameter list, in POM order;
  2. it replaces a child named `includes` with the precomputed list of changed files;
  3. it turns every other child into an element whose value is its evaluated raw value, or
     its `default-value` when the raw value is blank.

The copies are shared where their code is identical. A `Copy` flag (`OrgKie` or
`NetCardosi`) selects the behaviour where they differ:
- **where the diff file is looked for:** org.kie uses `artifactId.diff` relative to the
  working directory; net.cardosi puts `basedir` and the separator in front of it;
- **what happens to elements whose evaluated value is empty:** org.kie emits them; net.cardosi
  drops them.

Java's string operations are modelled exactly as the code uses them (module `JavaStrings`):
- `String.replace(t, "")` deletes every non-overlapping occurrence, scanning left to right.
- `split(" ")` splits on the space character only, and drops trailing empty strings.
- `split(" ")[0]` throws on a non-empty remainder made only of spaces.
- `StringUtils.isBlank` uses `Character.isWhitespace`.

The separator character (`File.separatorChar`) is a parameter.

Files:
- `wrappers.dfy`: `Option` and `Result`.
- `copies.dfy`: the `Copy` flag.
- `sequences.dfy`: order-preserving subsequences.
- `java_strings.dfy`: the Java and commons-lang string semantics.
- `scm_helper.dfy`: `SCMHelper`.
- `configuration_helper.dfy`: `ConfigurationHelper`.

Each imperative operation of the source is a method with the same loop:
- `parseLine`'s loops over the markers and over the roots;
- the `HashSet` filled line by line;
- the array filled by index in org.kie's `getConfigurationElements`;
- the list appended to in net.cardosi's version;
- the children array of `getIncludesElement`.

Each such method is proved equal to a specification function, and the properties are then
proved about those functions. The one exception is `GetIncludesElement`: its contract gives
the whole result directly (the name, the value and every child).

## Behaviour worth knowing

Each of these follows from the code and is proved by the lemma named beside it:

- **Roots are removed anywhere in the token.** `replace` deletes a root in the middle of
  the path as well as at its start (`ModuleHeaderExample`). The four roots are removed one
  after another, one full pass each (`RootsRemovedInOrder`).
- **A root can survive.** One pass per root can join the pieces around a removed root into
  a new one, so a path may still start with a source root (`RootSurvivesOnePassExample`).
- **The path ends at a space only.** `split(" ")` does not split on a tab, so a tab stays
  in the path (`TabHeaderExample`).
- **A remainder made only of spaces throws.** `split(" ")` then returns an empty array and
  `[0]` throws. Only `IOException` is caught, so the whole collection fails
  (`ShortSplitFailureExample`, `GitSplitFailureExample`, `CollectPaths`).
- **An empty remainder yields the empty path** (`EmptyRemainderExample`).
- **Elements follow the POM's order,** not the order of the parameter list
  (`FormatterPomOrderExample`, `PlexusConfigurationsFilters`).
- **The includes element appears only when a kept child is named `includes`**
  (`IncludesPresentIffIncludesChild`).
- **An evaluation failure aborts the whole mapping.** No partial list is returned, and the
  error is that of the first child whose evaluation throws (`KieElementsSpec`,
  `CardosiElementsSpec`).

## Model

| member | source | states |
|---|---|---|
| ScmHelper.FirstPrefix | src/main/java/org/kie/maven/codeformatter/plugin/SCMHelper.java:85-86 | The marker chosen is the first of `FILE_IDENTIFIERS`, in order, that the line starts with. None is chosen exactly when the line starts with no marker. |
| ScmHelper.FirstPrefixAt | src/main/java/org/kie/maven/codeformatter/plugin/SCMHelper.java:85-86 | Proof step, one branch of `FirstPrefix`: when the line starts with marker `k` and with no earlier marker, `k` is the marker that decides the line. |
| ScmHelper.SourceRoots | src/main/java/org/kie/maven/codeformatter/plugin/SCMHelper.java:48-52 | `TO_REMOVE` holds four distinct roots. Each starts with `src` and the separator and ends with the separator. |
| ScmHelper.ParseLine | src/main/java/org/kie/maven/codeformatter/plugin/SCMHelper.java:82-96 | `parseLine`, with its loop over the markers (returning on the first match); the loop over the roots is `RemoveRoots`. The result is `HeaderPath`: the first `' '`-delimited token after every marker occurrence is removed, with the roots removed from it. `SplitFailure` is returned when `split(" ")[0]` throws. The net.cardosi copy is identical (its SCMHelper.java:69-83). |
| ScmHelper.HeaderPath | src/main/java/org/kie/maven/codeformatter/plugin/SCMHelper.java:85-95 | What `parseLine` means for one line. It yields no file exactly when the line starts with no marker of `FILE_IDENTIFIERS`, and a path it yields is never longer than the line. |
| ScmHelper.NonHeaderLineYieldsNoFile | src/main/java/org/kie/maven/codeformatter/plugin/SCMHelper.java:85-95 | A line yields no file exactly when it starts with neither `--- a/` nor `diff --git a/` (both directions). |
| ScmHelper.MarkersExclusive | src/main/java/org/kie/maven/codeformatter/plugin/SCMHelper.java:46 | No line starts with both markers of `FILE_IDENTIFIERS`. Trying them in the other order picks the same marker for every line. |
| ScmHelper.HeaderPathShape | src/main/java/org/kie/maven/codeformatter/plugin/SCMHelper.java:87-92 | A path found on a header line: contains no space; is a subsequence of the first token of the line with the marker removed; is shorter than the line by at least the marker's length. |
| ScmHelper.ShortSplitFailureExample | src/main/java/org/kie/maven/codeformatter/plugin/SCMHelper.java:88 | `--- a/ ` throws in `split(" ")[0]`. |
| ScmHelper.GitSplitFailureExample | src/main/java/org/kie/maven/codeformatter/plugin/SCMHelper.java:88 | `diff --git a/   ` throws in `split(" ")[0]`. |
| ScmHelper.EmptyRemainderExample | src/main/java/org/kie/maven/codeformatter/plugin/SCMHelper.java:88 | `--- a/` yields the empty path: `split(" ")` of the empty string is `{""}`. |
| ScmHelper.HeaderPathAt | src/main/java/org/kie/maven/codeformatter/plugin/SCMHelper.java:85-92 | Proof step, one branch of `HeaderPath`: once marker `k` is the first marker the line starts with, the line yields what that marker's branch computes. |
| ScmHelper.MarkerDecides | src/main/java/org/kie/maven/codeformatter/plugin/SCMHelper.java:85-86 | A line that is marker `k` followed by any text is decided by marker `k`. |
| ScmHelper.MarkerRemovedOnce | src/main/java/org/kie/maven/codeformatter/plugin/SCMHelper.java:87 | Removing the marker from a line that starts with it, when the rest lacks the marker's first character, leaves exactly the rest. |
| ScmHelper.RemoveRoots | src/main/java/org/kie/maven/codeformatter/plugin/SCMHelper.java:89-91 | The loop reassigning `filePart` computes `RemoveEach` of the token over the four roots, in `TO_REMOVE` order. |
| ScmHelper.RemoveEach | src/main/java/org/kie/maven/codeformatter/plugin/SCMHelper.java:89-91 | Removing the roots one after another never makes the token longer. |
| ScmHelper.RemoveEachDeletesOnly | src/main/java/org/kie/maven/codeformatter/plugin/SCMHelper.java:89-91 | Removing the roots only deletes characters: the result is a subsequence of the token. |
| ScmHelper.RootsRemovedInOrder | src/main/java/org/kie/maven/codeformatter/plugin/SCMHelper.java:48-52 | The roots are removed in the order main/java, main/resources, test/java, test/resources, one full `replace` pass each. |
| ScmHelper.SourceRootsSlash | src/main/java/org/kie/maven/codeformatter/plugin/SCMHelper.java:48-52 | With `/` as separator, the roots are `src/main/java/`, `src/main/resources/`, `src/test/java/` and `src/test/resources/`. |
| ScmHelper.HeaderWithMarker | src/main/java/org/kie/maven/codeformatter/plugin/SCMHelper.java:86-92 | Take a line that is a marker followed by text without the marker's first character. If that text is non-empty and all spaces, the line throws. Otherwise it yields the text's first token with the roots removed. |
| ScmHelper.ShortHeaderExample | src/main/java/org/kie/maven/codeformatter/plugin/SCMHelper.java:86-92 | `--- a/src/main/java/x/Y.java` yields `x/Y.java`. |
| ScmHelper.GitHeaderExample | src/main/java/org/kie/maven/codeformatter/plugin/SCMHelper.java:86-92 | `diff --git a/src/test/resources/z.txt b/src/test/resources/z.txt` yields `z.txt`. |
| ScmHelper.ModuleHeaderExample | src/main/java/org/kie/maven/codeformatter/plugin/SCMHelper.java:89-91 | `--- a/core/src/main/java/x/Y.java` yields `core/x/Y.java`: a root is removed in the middle of the token. |
| ScmHelper.TabHeaderExample | src/main/java/org/kie/maven/codeformatter/plugin/SCMHelper.java:88 | A tab is not a delimiter: `--- a/x<TAB>y` yields `x<TAB>y`. |
| ScmHelper.RootSurvivesOnePassExample | src/main/java/org/kie/maven/codeformatter/plugin/SCMHelper.java:89-91 | `--- a/ssrc/main/java/rc/main/java/x` yields `src/main/java/x`: one pass per root can leave a root in the path. |
| ScmHelper.Collect | src/main/java/org/kie/maven/codeformatter/plugin/SCMHelper.java:73-79 | Building the set from the `parseLine` results succeeds exactly when none of them throws. A path is then in the set exactly when some result names it. |
| ScmHelper.CollectPaths | src/main/java/org/kie/maven/codeformatter/plugin/SCMHelper.java:73-79 | The set collection succeeds exactly when no line throws. On success, a path is in the set exactly when some line yields it, so duplicates collapse. The net.cardosi copy is its SCMHelper.java:60-66. |
| ScmHelper.ModifiedFileSet | src/main/java/org/kie/maven/codeformatter/plugin/SCMHelper.java:70-80 | The loop adding `parseLine` results into the `HashSet`. It computes `CollectPaths` of the lines, and the empty set when the file cannot be opened. |
| ScmHelper.KeepsFailing | src/main/java/org/kie/maven/codeformatter/plugin/SCMHelper.java:75 | Once a `parseLine` result throws, the results after it do not change the outcome. |
| ScmHelper.CollectPathsIgnoresOrder | src/main/java/org/kie/maven/codeformatter/plugin/SCMHelper.java:73-79 | Two diffs with the same lines, in any order and with any repetition, give the same result. |
| ScmHelper.CollectPathsMonotone | src/main/java/org/kie/maven/codeformatter/plugin/SCMHelper.java:73-79 | More lines can only add paths, or make the collection throw. |
| ScmHelper.ListOf | src/main/java/org/kie/maven/codeformatter/plugin/SCMHelper.java:66 | `new ArrayList<>(set)`: every path of the set exactly once, no duplicates, in an unspecified order. |
| ScmHelper.DiffFilePath | src/main/java/org/kie/maven/codeformatter/plugin/SCMHelper.java:64-65 | The diff file's path ends in `artifactId + ".diff"`. For org.kie it is exactly that. For net.cardosi it is `basedir`, then the separator, then that name (its SCMHelper.java:50-52). |
| ScmHelper.GetModifiedFiles | src/main/java/org/kie/maven/codeformatter/plugin/SCMHelper.java:64-66 | A missing diff file gives the empty list. Otherwise the call succeeds exactly when the set collection does, and then the list holds exactly the set's paths, each once. The net.cardosi copy is its SCMHelper.java:50-53. |
| JavaStrings.RemoveAll | src/main/java/org/kie/maven/codeformatter/plugin/SCMHelper.java:87 | `replace(target, "")` never lengthens a string. It shortens one that starts with `target` by at least `target`'s length. |
| JavaStrings.RemoveAllDeletesOnly | src/main/java/org/kie/maven/codeformatter/plugin/SCMHelper.java:90 | `replace(target, "")` only deletes characters: the result is a subsequence of the input. |
| JavaStrings.RemoveAllAbsent | src/main/java/org/kie/maven/codeformatter/plugin/SCMHelper.java:90 | A target that occurs nowhere leaves the string unchanged. |
| JavaStrings.RemoveAllMissingChar | src/main/java/org/kie/maven/codeformatter/plugin/SCMHelper.java:90 | A target containing a character the string lacks leaves the string unchanged. |
| JavaStrings.RemoveAllFront | src/main/java/org/kie/maven/codeformatter/plugin/SCMHelper.java:87 | Proof step, one branch of `RemoveAll`: an occurrence at the front is removed and the scan continues after it. |
| JavaStrings.RemoveAllSkipsFirst | src/main/java/org/kie/maven/codeformatter/plugin/SCMHelper.java:90 | Proof step, one branch of `RemoveAll`: a string that does not start with the target keeps its first character, and the scan continues after it. |
| JavaStrings.RemoveAllShort | src/main/java/org/kie/maven/codeformatter/plugin/SCMHelper.java:90 | Proof step, one branch of `RemoveAll`: a string shorter than the target is unchanged. |
| JavaStrings.RemoveAllKeepsPrefix | src/main/java/org/kie/maven/codeformatter/plugin/SCMHelper.java:90 | A prefix without the target's first character is kept as is, and the scan continues after it. |
| JavaStrings.UpToSpace | src/main/java/org/kie/maven/codeformatter/plugin/SCMHelper.java:88 | The first token is a prefix of the string and contains no space. It ends at the string's end or at a space. |
| JavaStrings.DropTrailingEmpty | src/main/java/org/kie/maven/codeformatter/plugin/SCMHelper.java:88 | `split`'s trimming is a prefix of the pieces that does not end in an empty piece, and only empty pieces are removed. |
| JavaStrings.Split | src/main/java/org/kie/maven/codeformatter/plugin/SCMHelper.java:88 | `split(" ")` gives at most one piece more than the string has characters. No piece contains a space. When the string has a space, trailing empty pieces are dropped. |
| JavaStrings.SplitFirstToken | src/main/java/org/kie/maven/codeformatter/plugin/SCMHelper.java:88 | `split(" ")` is empty exactly when the string is non-empty and all spaces. Otherwise its first element is the text before the first space. |
| ConfigurationHelper.PlexusConfigurations | src/main/java/org/kie/maven/codeformatter/plugin/ConfigurationHelper.java:144-152 | `getPlexusConfigurations` keeps only children whose name is in the parameter list. The net.cardosi copy is its ConfigurationHelper.java:131-139. |
| ConfigurationHelper.PlexusConfigurationsFilters | src/main/java/org/kie/maven/codeformatter/plugin/ConfigurationHelper.java:148-150 | The kept children are an order-preserving subsequence of the POM children. Each child with a listed name keeps its number of occurrences, and every other child is gone. |
| ConfigurationHelper.PlexusConfigurationsCons | src/main/java/org/kie/maven/codeformatter/plugin/ConfigurationHelper.java:149 | Proof step, one branch of `PlexusConfigurations`: whether a child is kept depends on its own name only. |
| ConfigurationHelper.ParameterLists | src/main/java/org/kie/maven/codeformatter/plugin/ConfigurationHelper.java:37-82 | `FORMATTER_PARAMETERS` and `IMPSORT_PARAMETERS` both hold `includes`. The names they share are exactly `sourceDirectory`, `testSourceDirectory`, `directories`, `includes`, `excludes` and `lineEnding`. The net.cardosi lists are its ConfigurationHelper.java:25-70. |
| ConfigurationHelper.KieElements | src/main/java/org/kie/maven/codeformatter/plugin/ConfigurationHelper.java:111-120 | org.kie: on success the output has exactly one element per kept child. |
| ConfigurationHelper.KieElementsSpec | src/main/java/org/kie/maven/codeformatter/plugin/ConfigurationHelper.java:111-120 | org.kie: the call succeeds exactly when no non-`includes` child's evaluation throws. On success, element `i` is derived from input `i`: the includes element for `includes`, otherwise `name = value`. On failure, the error is that of the first child whose evaluation throws. |
| ConfigurationHelper.CardosiElements | src/main/java/net/cardosi/maven/codeformatter/plugin/ConfigurationHelper.java:99-107 | net.cardosi: on success the output is no longer than the input. |
| ConfigurationHelper.CardosiElementsSpec | src/main/java/net/cardosi/maven/codeformatter/plugin/ConfigurationHelper.java:99-107 | net.cardosi: the same success and first-failure conditions as org.kie. Every output element is the includes element, or a childless element named after a non-`includes` child, whose value is that child's resolved value and is not empty. |
| ConfigurationHelper.KieKeepsFailing | src/main/java/org/kie/maven/codeformatter/plugin/ConfigurationHelper.java:117 | After an evaluation throws, the remaining children do not matter. |
| ConfigurationHelper.CardosiKeepsFailing | src/main/java/net/cardosi/maven/codeformatter/plugin/ConfigurationHelper.java:104 | After an evaluation throws, the remaining children do not matter. |
| ConfigurationHelper.KieConfigurationElements | src/main/java/org/kie/maven/codeformatter/plugin/ConfigurationHelper.java:106-121 | The array filled by index computes `KieElements`. |
| ConfigurationHelper.CardosiConfigurationElements | src/main/java/net/cardosi/maven/codeformatter/plugin/ConfigurationHelper.java:94-108 | The list appended to in the loop computes `CardosiElements`. |
| ConfigurationHelper.DropEmptyValues | src/main/java/net/cardosi/maven/codeformatter/plugin/ConfigurationHelper.java:128 | Removing empty-valued elements keeps exactly the elements that stand for `includes` or have a non-empty value, and adds nothing. The result is an order-preserving subsequence of the elements. Its length is the number of kept indices, so every kept element appears as often as before. |
| ConfigurationHelper.CardosiIsKieWithoutEmptyValues | src/main/java/net/cardosi/maven/codeformatter/plugin/ConfigurationHelper.java:99-107 | The copies fail together, with the same error. On success, the net.cardosi output is the org.kie output without its empty-valued non-`includes` elements. |
| ConfigurationHelper.CardosiSubsequenceOfKie | src/main/java/net/cardosi/maven/codeformatter/plugin/ConfigurationHelper.java:99-107 | The copies succeed together. On success, the net.cardosi list is an order-preserving subsequence of the org.kie array: POM order is kept. |
| ConfigurationHelper.IncludesPresentIffIncludesChild | src/main/java/org/kie/maven/codeformatter/plugin/ConfigurationHelper.java:114-115 | In both copies, the includes element appears in the output exactly when a kept child is named `includes`, even when it lists no file (net.cardosi ConfigurationHelper.java:101-102). |
| ConfigurationHelper.EmptyValueDivergence | src/main/java/net/cardosi/maven/codeformatter/plugin/ConfigurationHelper.java:128 | For a child whose value resolves to `""`, org.kie emits `name = ""` and net.cardosi emits nothing. |
| ConfigurationHelper.RawValueOverridesDefault | src/main/java/org/kie/maven/codeformatter/plugin/ConfigurationHelper.java:137-140 | A raw value that is not blank is evaluated as written, whatever the `default-value`. |
| ConfigurationHelper.BlankValueUsesDefault | src/main/java/org/kie/maven/codeformatter/plugin/ConfigurationHelper.java:137-140 | A null, empty or whitespace-only raw value is resolved as if the `default-value` had been the value. |
| ConfigurationHelper.Resolve | src/main/java/org/kie/maven/codeformatter/plugin/ConfigurationHelper.java:140 | `defaultIfNull(evaluate(defaultIfBlank(value, default-value)), "")`. It throws exactly when the evaluation throws, with the same error. Otherwise it is the evaluated string, or `""` when the evaluation gives `null`. The net.cardosi copy is its ConfigurationHelper.java:127. |
| ConfigurationHelper.KieElement | src/main/java/org/kie/maven/codeformatter/plugin/ConfigurationHelper.java:133-142 | org.kie `getElement`: it throws exactly when `Resolve` throws. Otherwise it returns a childless element with the child's name and the resolved value, even when that value is empty. |
| ConfigurationHelper.CardosiElement | src/main/java/net/cardosi/maven/codeformatter/plugin/ConfigurationHelper.java:120-129 | net.cardosi `getElement`: it throws exactly when `Resolve` throws. Otherwise it is `Optional.empty()` exactly when the resolved value is empty. Any element it returns has the child's name, no children and that non-empty value. |
| ConfigurationHelper.GetElementCopiesAgree | src/main/java/net/cardosi/maven/codeformatter/plugin/ConfigurationHelper.java:127-128 | The two `getElement`s throw together, with the same error. The net.cardosi result is empty exactly when the org.kie element's value is `""`; otherwise it wraps that same element. |
| JavaStrings.DefaultIfBlank | src/main/java/org/kie/maven/codeformatter/plugin/ConfigurationHelper.java:140 | `defaultIfBlank` returns the value unchanged when it is not blank, and the default when it is blank (`null`, empty or whitespace only). So `getElement` evaluates the raw value whenever it is not blank (net.cardosi ConfigurationHelper.java:127). |
| JavaStrings.BlankExamples | src/main/java/org/kie/maven/codeformatter/plugin/ConfigurationHelper.java:140 | `isBlank` (with `Character.isWhitespace`) holds for `null`, `""`, spaces, tabs, line breaks and the ideographic space. It does not hold for a non-breaking space or for text with a visible character. So `defaultIfBlank(" \t", "UTF-8")` is `UTF-8`, while a non-breaking space is kept. |
| ConfigurationHelper.IncludedFiles | src/main/java/org/kie/maven/codeformatter/plugin/ConfigurationHelper.java:126-128 | The files an includes element lists: one per child. |
| ConfigurationHelper.GetIncludesElement | src/main/java/org/kie/maven/codeformatter/plugin/ConfigurationHelper.java:123-131 | An element named `includes` with no value and one child per file, in order. Child `i` has an empty name and value `files[i]`, and `IncludedFiles` gives back the list. The net.cardosi copy is its ConfigurationHelper.java:110-118. |
| ConfigurationHelper.ElementsNamedAfterChildren | src/main/java/org/kie/maven/codeformatter/plugin/ConfigurationHelper.java:113-117 | Every element either copy emits is the includes element or is named after one of the kept children. |
| ConfigurationHelper.ConfigurationElementsFor | src/main/java/org/kie/maven/codeformatter/plugin/ConfigurationHelper.java:93-94 | Filtering, then the copy's element building. Every emitted name other than the includes element's is in the parameter list. |
| ConfigurationHelper.GetFormatterConfigurationElements | src/main/java/org/kie/maven/codeformatter/plugin/ConfigurationHelper.java:88-95 | With an includes element named `includes`, as `getIncludesElement` builds it, every emitted name is in `FORMATTER_PARAMETERS` (net.cardosi ConfigurationHelper.java:76-83). |
| ConfigurationHelper.GetImpsortConfigurationElements | src/main/java/org/kie/maven/codeformatter/plugin/ConfigurationHelper.java:97-104 | With an includes element named `includes`, as `getIncludesElement` builds it, every emitted name is in `IMPSORT_PARAMETERS` (net.cardosi ConfigurationHelper.java:85-92). |
| ConfigurationHelper.SkipIsImpsortOnly | src/main/java/org/kie/maven/codeformatter/plugin/ConfigurationHelper.java:66-82 | `skip` is an import-sorter parameter and not a formatter parameter. |
| ConfigurationHelper.PlexusConfigurationsDropsSecond | src/main/java/org/kie/maven/codeformatter/plugin/ConfigurationHelper.java:148-150 | Of four children, exactly the one with an unlisted name is dropped, and the others keep their order. |
| ConfigurationHelper.ExamplePomKept | src/main/java/org/kie/maven/codeformatter/plugin/ConfigurationHelper.java:93 | The formatter keeps `lineEnding`, `includes` and `encoding` of the example POM, in POM order, and drops `skip`. |
| ConfigurationHelper.ExamplePomValues | src/main/java/org/kie/maven/codeformatter/plugin/ConfigurationHelper.java:137-140 | `LF` is used as written; the missing `encoding` value falls back to its default `UTF-8`. |
| ConfigurationHelper.KieElementsAroundIncludes | src/main/java/org/kie/maven/codeformatter/plugin/ConfigurationHelper.java:111-120 | For three kept children with `includes` in the middle, org.kie emits the first child's element, then the includes element, then the third child's, index by index. |
| ConfigurationHelper.FormatterPomOrderExample | src/main/java/org/kie/maven/codeformatter/plugin/ConfigurationHelper.java:88-95 | org.kie formatter output for the example: `lineEnding=LF`, then the includes element, then `encoding=UTF-8`. This is POM order, not parameter-list order. |

## Left out

- The `executeMojo` call that runs the SCM `diff` goal, and the calls that run the formatter
  and the import sorter. They are foreign plugin dispatch: the model starts from the diff
  file and stops at the element lists.
- `FormatMojo` and the helpers that invoke the tools. They only sequence foreign calls.
- Reading the diff file (`Files.lines`, UTF-8 decoding). The file system is a map from path
  to lines, and a path absent from it is a file that cannot be opened.
- `PluginParameterExpressionEvaluator` is a parameter: a function from an optional expression
  to an optional string, or an `ExpressionEvaluationException`.
- `PlexusConfiguration` and `MojoExecutor.Element` are plain datatypes: a name, an optional
  value, an optional default (children for elements).
- `java.io.File`: paths are strings. `new File(path)` normalisation is not modelled: it
  removes repeated or trailing separators, and on Windows it turns `/` into `\`. `File.equals`
  is not modelled either, so two spellings of one file count as two paths. With `\` as the
  separator, the roots are built with `\` while diff paths use `/`, so no root is ever
  removed.
- `File.separatorChar` is a parameter.
- The iteration order of the `HashSet`. `ListOf` promises the set's elements once each, in any
  order.
- Logging and `printStackTrace`.
- An error raised while the lines are read, after the file was opened, is not modelled: a
  file that can be opened yields all its lines. `Files.lines` wraps such an error, including
  a `MalformedInputException` for a diff that is not valid UTF-8, in an
  `UncheckedIOException`. The `catch (IOException e)` of `getModifiedFiles` does not catch
  it, so the code then throws instead of returning the empty list.
