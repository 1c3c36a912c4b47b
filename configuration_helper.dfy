/**
 * `ConfigurationHelper`: turning the plugin's own `<configuration>` children into the
 * configuration elements handed to the formatter and to the import sorter. Children whose
 * name is not in the tool's parameter list are dropped, the POM order of the rest is kept,
 * a child named `includes` becomes the precomputed list of changed files, and every other
 * child becomes an element whose value is its evaluated raw value or `default-value`.
 *
 * The org.kie copy emits an element for every kept child; the net.cardosi copy drops the
 * non-`includes` elements whose evaluated value is empty.
 */
module ConfigurationHelper {
  import opened Wrappers
  import opened Sequences
  import opened JavaStrings
  import opened Copies

  const INCLUDES := "includes"

  /** `FORMATTER_PARAMETERS`: the names forwarded to the formatter, `includes` among them. */
  const FormatterParameters: seq<string> := [
    "sourceDirectory", "testSourceDirectory", "targetDirectory", "basedir", "cachedir",
    "directories", INCLUDES, "excludes", "compilerSource", "compilerCompliance",
    "compilerTargetPlatform", "encoding", "lineEnding", "configFile", "configJsFile",
    "configHtmlFile", "configXmlFile", "configJsonFile", "configCssFile", "skipJavaFormatting",
    "skipJsFormatting", "skipHtmlFormatting", "skipXmlFormatting", "skipJsonFormatting",
    "skipCssFormatting", "skipFormatting", "useEclipseDefaults", "javaExclusionPattern"]

  /** `IMPSORT_PARAMETERS`: the names forwarded to the import sorter, `includes` among them. */
  const ImpsortParameters: seq<string> := [
    "sourceEncoding", "skip", "staticGroups", "groups", "staticAfter", "joinStaticWithNonStatic",
    "sourceDirectory", "testSourceDirectory", "directories", "includes", "excludes",
    "removeUnused", "treatSamePackageAsUnused", "breadthFirstComparator", "lineEnding", "compliance"]

  /**
   * Both tools take `includes`; besides it, they share only the source and test directories,
   * the explicit directory list, the exclusions and the line ending.
   */
  lemma ParameterLists()
    ensures INCLUDES in FormatterParameters && INCLUDES in ImpsortParameters
    ensures forall n :: n in FormatterParameters && n in ImpsortParameters
              <==> n in ["sourceDirectory", "testSourceDirectory", "directories", INCLUDES, "excludes", "lineEnding"]
  {
    assert FormatterParameters[6] == INCLUDES && ImpsortParameters[9] == INCLUDES;
    forall n | n in FormatterParameters && n in ImpsortParameters
      ensures n in ["sourceDirectory", "testSourceDirectory", "directories", INCLUDES, "excludes", "lineEnding"]
    {
      var k :| 0 <= k < |ImpsortParameters| && ImpsortParameters[k] == n;
      if k !in {6, 7, 8, 9, 10, 14} {
        ImpsortOnlyParameter(k);
      }
    }
  }

  /** The import sorter's names other than the six it shares are not formatter parameters. */
  lemma ImpsortOnlyParameter(k: int)
    requires 0 <= k < |ImpsortParameters| && k !in {6, 7, 8, 9, 10, 14}
    ensures ImpsortParameters[k] !in FormatterParameters
  {
    if k < 6 {
      ImpsortHeadNotFormatter(k);
    } else {
      ImpsortTailNotFormatter(k);
    }
  }

  /** The six names at the head of `IMPSORT_PARAMETERS` are not formatter parameters. */
  lemma ImpsortHeadNotFormatter(k: int)
    requires 0 <= k < 6
    ensures ImpsortParameters[k] !in FormatterParameters
  {
  }

  /** `removeUnused`, `treatSamePackageAsUnused`, `breadthFirstComparator` and `compliance` are not formatter parameters. */
  lemma ImpsortTailNotFormatter(k: int)
    requires k in {11, 12, 13, 15}
    ensures ImpsortParameters[k] !in FormatterParameters
  {
  }

  /**
   * One child of the POM's `<configuration>` (a `PlexusConfiguration`): its name, its raw
   * value and its `default-value` attribute, either of which may be `null`.
   */
  datatype PomChild = PomChild(name: string, value: Option<string>, defaultValue: Option<string>)

  /** A `MojoExecutor.Element`: a name, a text value that may be `null`, and child elements. */
  datatype Element = Element(name: string, value: Option<string>, children: seq<Element>)

  /** The `ExpressionEvaluationException` the evaluator may throw. */
  datatype EvaluationError = ExpressionEvaluationException(message: string)

  /**
   * `PluginParameterExpressionEvaluator.evaluate`, a foreign function: it maps an expression
   * (possibly `null`) to an object whose `toString()` is returned (possibly `null`), or throws.
   */
  type Evaluator = Option<string> -> Result<Option<string>, EvaluationError>

  /** `getPlexusConfigurations`: the POM children whose name is in `parameters`, in POM order. */
  function PlexusConfigurations(children: seq<PomChild>, parameters: seq<string>): (r: seq<PomChild>)
    ensures forall c :: c in r ==> c.name in parameters
  {
    if |children| == 0 then []
    else
      var rest := PlexusConfigurations(children[1..], parameters);
      if children[0].name in parameters then [children[0]] + rest else rest
  }

  /**
   * Nothing but the filtering happens: the kept children are a subsequence of the POM's
   * (order preserved), each kept child occurs as often as in the POM, the others not at all.
   */
  lemma {:induction false} PlexusConfigurationsFilters(children: seq<PomChild>, parameters: seq<string>)
    ensures IsSubsequence(PlexusConfigurations(children, parameters), children)
    ensures forall c: PomChild :: c.name in parameters
              ==> multiset(PlexusConfigurations(children, parameters))[c] == multiset(children)[c]
    ensures forall c: PomChild :: c.name !in parameters ==> multiset(PlexusConfigurations(children, parameters))[c] == 0
  {
    if |children| > 0 {
      var rest := PlexusConfigurations(children[1..], parameters);
      PlexusConfigurationsFilters(children[1..], parameters);
      assert children == [children[0]] + children[1..];
      if children[0].name !in parameters {
        SubsequenceConsRight(rest, children[0], children[1..]);
      } else {
        assert ([children[0]] + rest)[1..] == rest;
      }
    }
  }

  /**
   * The value `getElement` computes for a child: `defaultIfBlank(value, default-value)` is
   * evaluated, and a `null` result becomes the empty string.
   */
  function Resolve(child: PomChild, eval: Evaluator): (r: Result<string, EvaluationError>)
    ensures var evaluated := eval(DefaultIfBlank(child.value, child.defaultValue));
            r.Failure? <==> evaluated.Failure?
    ensures var evaluated := eval(DefaultIfBlank(child.value, child.defaultValue));
            r.Failure? ==> r.error == evaluated.error
    ensures var evaluated := eval(DefaultIfBlank(child.value, child.defaultValue));
            r.Success? ==> evaluated == Success(Some(r.value)) || (evaluated == Success(None) && r.value == "")
  {
    match eval(DefaultIfBlank(child.value, child.defaultValue))
    case Failure(e) => Failure(e)
    case Success(None) => Success("")
    case Success(Some(s)) => Success(s)
  }

  /** The org.kie `getElement`: the element `name = value`, even when the value is empty. */
  function KieElement(child: PomChild, eval: Evaluator): (r: Result<Element, EvaluationError>)
    ensures r.Failure? <==> Resolve(child, eval).Failure?
    ensures r.Failure? ==> r.error == Resolve(child, eval).error
    ensures r.Success? ==> r.value.name == child.name && r.value.children == []
                           && r.value.value == Some(Resolve(child, eval).value)
  {
    match Resolve(child, eval)
    case Failure(e) => Failure(e)
    case Success(v) => Success(Element(child.name, Some(v), []))
  }

  /** The net.cardosi `getElement`: `Optional.empty()` when the value is empty. */
  function CardosiElement(child: PomChild, eval: Evaluator): (r: Result<Option<Element>, EvaluationError>)
    ensures r.Failure? <==> Resolve(child, eval).Failure?
    ensures r.Failure? ==> r.error == Resolve(child, eval).error
    ensures r.Success? ==> (r.value.None? <==> Resolve(child, eval).value == "")
    ensures r.Success? && r.value.Some? ==>
              r.value.value.name == child.name && r.value.value.children == []
              && r.value.value.value == Some(Resolve(child, eval).value) && r.value.value.value != Some("")
  {
    match Resolve(child, eval)
    case Failure(e) => Failure(e)
    case Success(v) => Success(if v == "" then None else Some(Element(child.name, Some(v), [])))
  }

  /**
   * The two `getElement`s agree but for empty values: they throw together, with the same
   * error, and the net.cardosi one is `Optional.empty()` exactly when the org.kie element's
   * value is empty, and otherwise wraps that very element.
   */
  lemma GetElementCopiesAgree(child: PomChild, eval: Evaluator)
    ensures var kie := KieElement(child, eval);
            var cardosi := CardosiElement(child, eval);
            cardosi.Failure? == kie.Failure?
            && (kie.Failure? ==> cardosi.error == kie.error)
            && (kie.Success? ==> cardosi.value == if kie.value.value == Some("") then None else Some(kie.value))
  {
  }

  /** Every non-`includes` child before index `n` evaluates without throwing. */
  predicate NoFailureBefore(kids: seq<PomChild>, n: int, eval: Evaluator)
    requires 0 <= n <= |kids|
  {
    forall j :: 0 <= j < n ==> kids[j].name == INCLUDES || Resolve(kids[j], eval).Success?
  }

  /** Index `i` holds the first non-`includes` child whose evaluation throws. */
  predicate FirstFailureAt(kids: seq<PomChild>, i: int, eval: Evaluator) {
    0 <= i < |kids| && kids[i].name != INCLUDES && Resolve(kids[i], eval).Failure?
    && NoFailureBefore(kids, i, eval)
  }

  /** What the org.kie copy puts at the index of `kid`. */
  function KieSlot(includes: Element, kid: PomChild, eval: Evaluator): Element
    requires kid.name == INCLUDES || Resolve(kid, eval).Success?
  {
    if kid.name == INCLUDES then includes else KieElement(kid, eval).value
  }

  /**
   * The result of the org.kie `getConfigurationElements`: one element per kept child, or the
   * first evaluation failure (`KieElementsSpec` states what the elements are).
   */
  function KieElements(includes: Element, kids: seq<PomChild>, eval: Evaluator): (r: Result<seq<Element>, EvaluationError>)
    ensures r.Success? ==> |r.value| == |kids|
  {
    if |kids| == 0 then Success([])
    else
      match KieElements(includes, kids[..|kids| - 1], eval)
      case Failure(e) => Failure(e)
      case Success(elements) =>
        var last := kids[|kids| - 1];
        if last.name == INCLUDES then Success(elements + [includes])
        else
          match KieElement(last, eval)
          case Failure(e) => Failure(e)
          case Success(element) => Success(elements + [element])
  }

  /**
   * The org.kie elements succeed exactly when no non-`includes` child throws; element `i`
   * is then derived from child `i` alone, and a failure is that of the first child that throws.
   */
  lemma {:induction false} KieElementsSpec(includes: Element, kids: seq<PomChild>, eval: Evaluator)
    ensures var r := KieElements(includes, kids, eval);
            r.Success? <==> NoFailureBefore(kids, |kids|, eval)
    ensures var r := KieElements(includes, kids, eval);
            r.Success? ==> forall i :: 0 <= i < |kids| ==> r.value[i] == KieSlot(includes, kids[i], eval)
    ensures var r := KieElements(includes, kids, eval);
            r.Failure? ==> exists i :: FirstFailureAt(kids, i, eval) && Resolve(kids[i], eval).error == r.error
  {
    if |kids| > 0 {
      var n := |kids| - 1;
      var before := kids[..n];
      KieElementsSpec(includes, before, eval);
      assert forall j :: 0 <= j < n ==> before[j] == kids[j];
      var earlier := KieElements(includes, before, eval);
      if earlier.Failure? {
        var i :| FirstFailureAt(before, i, eval) && Resolve(before[i], eval).error == earlier.error;
        assert FirstFailureAt(kids, i, eval);
      } else if kids[n].name != INCLUDES && Resolve(kids[n], eval).Failure? {
        assert FirstFailureAt(kids, n, eval);
      }
    }
  }

  /**
   * The result of the net.cardosi `getConfigurationElements`: the kept children in order,
   * `includes` children replaced by the includes element and the others by their element
   * unless its value is empty; or the first evaluation failure (`CardosiElementsSpec`).
   */
  function CardosiElements(includes: Element, kids: seq<PomChild>, eval: Evaluator): (r: Result<seq<Element>, EvaluationError>)
    ensures r.Success? ==> |r.value| <= |kids|
  {
    if |kids| == 0 then Success([])
    else
      match CardosiElements(includes, kids[..|kids| - 1], eval)
      case Failure(e) => Failure(e)
      case Success(elements) =>
        var last := kids[|kids| - 1];
        if last.name == INCLUDES then Success(elements + [includes])
        else
          match CardosiElement(last, eval)
          case Failure(e) => Failure(e)
          case Success(None) => Success(elements)
          case Success(Some(element)) => Success(elements + [element])
  }

  /**
   * The net.cardosi elements succeed exactly when no non-`includes` child throws; each is
   * then the includes element or a childless, non-empty `name = value` of a non-`includes`
   * child, and a failure is that of the first child that throws.
   */
  lemma {:induction false} CardosiElementsSpec(includes: Element, kids: seq<PomChild>, eval: Evaluator)
    ensures var r := CardosiElements(includes, kids, eval);
            r.Success? <==> NoFailureBefore(kids, |kids|, eval)
    ensures var r := CardosiElements(includes, kids, eval);
            r.Success? ==> forall e :: e in r.value ==>
              e == includes
              || (e.name != INCLUDES && e.children == [] && e.value.Some? && e.value.value != ""
                  && exists i :: 0 <= i < |kids| && kids[i].name == e.name && Resolve(kids[i], eval) == Success(e.value.value))
    ensures var r := CardosiElements(includes, kids, eval);
            r.Failure? ==> exists i :: FirstFailureAt(kids, i, eval) && Resolve(kids[i], eval).error == r.error
  {
    if |kids| > 0 {
      var n := |kids| - 1;
      var before := kids[..n];
      CardosiElementsSpec(includes, before, eval);
      assert forall j :: 0 <= j < n ==> before[j] == kids[j];
      var earlier := CardosiElements(includes, before, eval);
      if earlier.Failure? {
        var i :| FirstFailureAt(before, i, eval) && Resolve(before[i], eval).error == earlier.error;
        assert FirstFailureAt(kids, i, eval);
      } else if kids[n].name != INCLUDES && Resolve(kids[n], eval).Failure? {
        assert FirstFailureAt(kids, n, eval);
      }
    }
  }

  /** Once a child has thrown, the children after it do not matter (org.kie). */
  lemma {:induction false} KieKeepsFailing(includes: Element, kids: seq<PomChild>, n: int, eval: Evaluator)
    requires 0 <= n <= |kids| && KieElements(includes, kids[..n], eval).Failure?
    ensures KieElements(includes, kids, eval) == KieElements(includes, kids[..n], eval)
    decreases |kids| - n
  {
    if n < |kids| {
      var longer := kids[..n + 1];
      assert longer[..|longer| - 1] == kids[..n];
      assert KieElements(includes, longer, eval) == KieElements(includes, kids[..n], eval);
      KieKeepsFailing(includes, kids, n + 1, eval);
    } else {
      assert kids[..n] == kids;
    }
  }

  /** Once a child has thrown, the children after it do not matter (net.cardosi). */
  lemma {:induction false} CardosiKeepsFailing(includes: Element, kids: seq<PomChild>, n: int, eval: Evaluator)
    requires 0 <= n <= |kids| && CardosiElements(includes, kids[..n], eval).Failure?
    ensures CardosiElements(includes, kids, eval) == CardosiElements(includes, kids[..n], eval)
    decreases |kids| - n
  {
    if n < |kids| {
      var longer := kids[..n + 1];
      assert longer[..|longer| - 1] == kids[..n];
      assert CardosiElements(includes, longer, eval) == CardosiElements(includes, kids[..n], eval);
      CardosiKeepsFailing(includes, kids, n + 1, eval);
    } else {
      assert kids[..n] == kids;
    }
  }

  /** The net.cardosi copy keeps an org.kie element when it stands for `includes` or its value is not empty. */
  predicate KeptByCardosi(kid: PomChild, element: Element) {
    kid.name == INCLUDES || element.value != Some("")
  }

  /** The indices whose org.kie element the net.cardosi copy keeps. */
  function KeptIndices(kids: seq<PomChild>, elements: seq<Element>): set<int>
    requires |kids| == |elements|
  {
    set i | 0 <= i < |kids| && KeptByCardosi(kids[i], elements[i])
  }

  /** The last index adds one kept index exactly when its element is kept. */
  lemma KeptIndicesLast(kids: seq<PomChild>, elements: seq<Element>)
    requires |kids| == |elements| > 0
    ensures var n := |kids| - 1;
            |KeptIndices(kids, elements)|
            == |KeptIndices(kids[..n], elements[..n])| + if KeptByCardosi(kids[n], elements[n]) then 1 else 0
  {
    var n := |kids| - 1;
    var before := KeptIndices(kids[..n], elements[..n]);
    assert before == set i | 0 <= i < n && KeptByCardosi(kids[i], elements[i]);
    assert n !in before;
    assert KeptIndices(kids, elements) == before + if KeptByCardosi(kids[n], elements[n]) then {n} else {};
  }

  /**
   * The org.kie elements with the ones the net.cardosi copy leaves out removed: those of
   * non-`includes` children whose value is the empty string.
   */
  function DropEmptyValues(kids: seq<PomChild>, elements: seq<Element>): (r: seq<Element>)
    requires |kids| == |elements|
    ensures |r| <= |elements|
    ensures forall e :: e in r ==> exists i :: 0 <= i < |kids| && elements[i] == e && KeptByCardosi(kids[i], e)
    ensures forall i :: 0 <= i < |kids| && KeptByCardosi(kids[i], elements[i]) ==> elements[i] in r
    ensures IsSubsequence(r, elements)
    ensures |r| == |KeptIndices(kids, elements)|
  {
    if |kids| == 0 then
      assert KeptIndices(kids, elements) == {};
      []
    else
      var n := |kids| - 1;
      var rest := DropEmptyValues(kids[..n], elements[..n]);
      assert kids[..n] + [kids[n]] == kids && elements[..n] + [elements[n]] == elements;
      KeptIndicesLast(kids, elements);
      if KeptByCardosi(kids[n], elements[n]) then
        SubsequenceSnoc(rest, elements[..n], elements[n]);
        rest + [elements[n]]
      else
        SubsequenceSnocRight(rest, elements[..n], elements[n]);
        rest
  }

  /** `DropEmptyValues` decides on the last element alone, after the ones before it. */
  lemma DropEmptyValuesLast(kids: seq<PomChild>, elements: seq<Element>)
    requires |kids| == |elements| > 0
    ensures var n := |kids| - 1;
            var rest := DropEmptyValues(kids[..n], elements[..n]);
            DropEmptyValues(kids, elements)
            == if KeptByCardosi(kids[n], elements[n]) then rest + [elements[n]] else rest
  {
  }

  /** The step of `CardosiIsKieWithoutEmptyValues` for the last child, once the others succeeded. */
  lemma CardosiLastStep(includes: Element, kids: seq<PomChild>, eval: Evaluator)
    requires |kids| > 0
    requires var before := kids[..|kids| - 1];
             var earlier := KieElements(includes, before, eval);
             earlier.Success? && CardosiElements(includes, before, eval) == Success(DropEmptyValues(before, earlier.value))
    ensures var kie := KieElements(includes, kids, eval);
            CardosiElements(includes, kids, eval) == if kie.Success? then Success(DropEmptyValues(kids, kie.value)) else kie
  {
    var n := |kids| - 1;
    var before := kids[..n];
    var kie := KieElements(includes, kids, eval);
    var earlier := KieElements(includes, before, eval);
    var last := kids[n];
    if kie.Success? {
      assert kie.value[..n] == earlier.value;
      DropEmptyValuesLast(kids, kie.value);
      if last.name != INCLUDES {
        var v := Resolve(last, eval).value;
        assert kie.value[n] == Element(last.name, Some(v), []);
        assert CardosiElement(last, eval) == Success(if v == "" then None else Some(kie.value[n]));
      }
    }
  }

  /**
   * The two copies agree except for empty values: they fail together, with the same error,
   * and on success the net.cardosi list is the org.kie array without the elements whose
   * value is empty (other than the includes element).
   */
  lemma {:induction false} CardosiIsKieWithoutEmptyValues(includes: Element, kids: seq<PomChild>, eval: Evaluator)
    ensures var kie := KieElements(includes, kids, eval);
            CardosiElements(includes, kids, eval) == if kie.Success? then Success(DropEmptyValues(kids, kie.value)) else kie
  {
    if |kids| > 0 {
      var n := |kids| - 1;
      var before := kids[..n];
      CardosiIsKieWithoutEmptyValues(includes, before, eval);
      var kie := KieElements(includes, kids, eval);
      var earlier := KieElements(includes, before, eval);
      if earlier.Success? {
        CardosiLastStep(includes, kids, eval);
      } else {
        assert kie == earlier;
      }
    }
  }

  /** On success, the net.cardosi list is the org.kie array with elements deleted, in the same order. */
  lemma CardosiSubsequenceOfKie(includes: Element, kids: seq<PomChild>, eval: Evaluator)
    ensures var kie := KieElements(includes, kids, eval);
            var cardosi := CardosiElements(includes, kids, eval);
            cardosi.Success? == kie.Success?
            && (kie.Success? ==> IsSubsequence(cardosi.value, kie.value))
  {
    CardosiIsKieWithoutEmptyValues(includes, kids, eval);
  }

  /**
   * The includes element is emitted exactly when a kept child is named `includes`, by both
   * copies (the net.cardosi copy keeps it even when it lists no file).
   */
  lemma IncludesPresentIffIncludesChild(copy: Copy, includes: Element, kids: seq<PomChild>, eval: Evaluator)
    requires includes.name == INCLUDES
    ensures var r := ConfigurationSpec(copy, includes, kids, eval);
            r.Success? ==> (includes in r.value <==> exists i :: 0 <= i < |kids| && kids[i].name == INCLUDES)
  {
    var kie := KieElements(includes, kids, eval);
    KieElementsSpec(includes, kids, eval);
    CardosiIsKieWithoutEmptyValues(includes, kids, eval);
    if kie.Success? {
      if includes in kie.value {
        var i :| 0 <= i < |kie.value| && kie.value[i] == includes;
        assert kie.value[i] == KieSlot(includes, kids[i], eval);
      }
      forall i | 0 <= i < |kids| && kids[i].name == INCLUDES
        ensures includes in kie.value && includes in DropEmptyValues(kids, kie.value)
      {
        assert kie.value[i] == includes;
      }
    }
  }

  /** An empty value: org.kie emits `name = ""`, net.cardosi emits nothing. */
  lemma EmptyValueDivergence(includes: Element, kid: PomChild, eval: Evaluator)
    requires kid.name != INCLUDES && Resolve(kid, eval) == Success("")
    ensures KieElements(includes, [kid], eval) == Success([Element(kid.name, Some(""), [])])
    ensures CardosiElements(includes, [kid], eval) == Success([])
  {
    assert [kid][..0] == [] && [kid][0] == kid;
    var r := KieElements(includes, [kid], eval);
    KieElementsSpec(includes, [kid], eval);
    assert NoFailureBefore([kid], 1, eval);
    assert r.value[0] == KieSlot(includes, kid, eval) == Element(kid.name, Some(""), []);
    assert r.value == [Element(kid.name, Some(""), [])];
  }

  /** `skip` is an import-sorter parameter the formatter does not take. */
  lemma SkipIsImpsortOnly()
    ensures "skip" in ImpsortParameters && "skip" !in FormatterParameters
  {
    assert ImpsortParameters[1] == "skip";
  }

  /** The children of the worked example below. */
  const ExamplePom: seq<PomChild> := [
    PomChild("lineEnding", Some("LF"), None), PomChild("skip", Some("true"), None),
    PomChild(INCLUDES, None, None), PomChild("encoding", None, Some("UTF-8"))]

  /** A child is kept or dropped on its own name alone, whatever follows it. */
  lemma PlexusConfigurationsCons(c: PomChild, rest: seq<PomChild>, parameters: seq<string>)
    ensures PlexusConfigurations([c] + rest, parameters)
            == (if c.name in parameters then [c] else []) + PlexusConfigurations(rest, parameters)
  {
    assert ([c] + rest)[1..] == rest;
  }

  /** Of four children, the one whose name is not a parameter is the one dropped; the rest keep their order. */
  lemma PlexusConfigurationsDropsSecond(c0: PomChild, c1: PomChild, c2: PomChild, c3: PomChild, parameters: seq<string>)
    requires c0.name in parameters && c1.name !in parameters && c2.name in parameters && c3.name in parameters
    ensures PlexusConfigurations([c0, c1, c2, c3], parameters) == [c0, c2, c3]
  {
    PlexusConfigurationsCons(c3, [], parameters);
    PlexusConfigurationsCons(c2, [c3], parameters);
    PlexusConfigurationsCons(c1, [c2, c3], parameters);
    PlexusConfigurationsCons(c0, [c1, c2, c3], parameters);
    assert [c3] + [] == [c3] && [c2] + [c3] == [c2, c3] && [c1] + [c2, c3] == [c1, c2, c3];
    assert [c0] + [c1, c2, c3] == [c0, c1, c2, c3] && [c0] + [c2, c3] == [c0, c2, c3];
  }

  /** The formatter keeps the example's children other than `skip`, in POM order. */
  lemma ExamplePomKept()
    ensures PlexusConfigurations(ExamplePom, FormatterParameters) == [ExamplePom[0], ExamplePom[2], ExamplePom[3]]
  {
    var pom := ExamplePom;
    SkipIsImpsortOnly();
    assert FormatterParameters[12] == pom[0].name && FormatterParameters[6] == pom[2].name
           && FormatterParameters[11] == pom[3].name;
    assert pom == [pom[0], pom[1], pom[2], pom[3]];
    PlexusConfigurationsDropsSecond(pom[0], pom[1], pom[2], pom[3], FormatterParameters);
  }

  /** The example's raw value `LF` is used as written, and the missing `encoding` falls back to its default. */
  lemma ExamplePomValues(eval: Evaluator)
    requires forall x :: eval(x) == Success(x)
    ensures Resolve(ExamplePom[0], eval) == Success("LF")
    ensures Resolve(ExamplePom[3], eval) == Success("UTF-8")
  {
    assert !IsJavaWhitespace(ExamplePom[0].value.value[0]);
    assert !IsBlank(ExamplePom[0].value);
  }

  /** Three kept children, the middle one `includes`: org.kie maps them index by index. */
  lemma KieElementsAroundIncludes(includes: Element, c0: PomChild, c1: PomChild, c2: PomChild, eval: Evaluator, v0: string, v2: string)
    requires c0.name != INCLUDES && c1.name == INCLUDES && c2.name != INCLUDES
    requires Resolve(c0, eval) == Success(v0) && Resolve(c2, eval) == Success(v2)
    ensures KieElements(includes, [c0, c1, c2], eval)
            == Success([Element(c0.name, Some(v0), []), includes, Element(c2.name, Some(v2), [])])
  {
    var kids := [c0, c1, c2];
    var r := KieElements(includes, kids, eval);
    KieElementsSpec(includes, kids, eval);
    assert NoFailureBefore(kids, |kids|, eval);
    assert r.Success? && |r.value| == 3;
    assert r.value[0] == KieSlot(includes, kids[0], eval);
    assert r.value[1] == KieSlot(includes, kids[1], eval);
    assert r.value[2] == KieSlot(includes, kids[2], eval);
    assert r.value == [Element(c0.name, Some(v0), []), includes, Element(c2.name, Some(v2), [])];
  }

  /**
   * A worked org.kie case, with an evaluator that returns expressions unchanged: the elements
   * follow the POM, not the parameter list (`lineEnding` before `encoding`), a child the
   * formatter does not take is dropped, the includes element takes the place of the
   * `includes` child, and a missing value falls back to `default-value`.
   */
  lemma FormatterPomOrderExample(includes: Element, eval: Evaluator)
    requires forall x :: eval(x) == Success(x)
    ensures ConfigurationSpec(OrgKie, includes, PlexusConfigurations(ExamplePom, FormatterParameters), eval)
            == Success([Element("lineEnding", Some("LF"), []), includes, Element("encoding", Some("UTF-8"), [])])
  {
    ExamplePomKept();
    ExamplePomValues(eval);
    KieElementsAroundIncludes(includes, ExamplePom[0], ExamplePom[2], ExamplePom[3], eval, "LF", "UTF-8");
  }

  /** A raw value that is not blank is evaluated as written: the `default-value` plays no part. */
  lemma RawValueOverridesDefault(child: PomChild, otherDefault: Option<string>, eval: Evaluator)
    requires !IsBlank(child.value)
    ensures Resolve(child, eval) == Resolve(child.(defaultValue := otherDefault), eval)
  {
  }

  /** A missing or blank raw value behaves as if the `default-value` had been written as the value. */
  lemma BlankValueUsesDefault(child: PomChild, eval: Evaluator)
    requires IsBlank(child.value)
    ensures Resolve(child, eval) == Resolve(child.(value := child.defaultValue), eval)
  {
  }

  /**
   * The org.kie `getConfigurationElements`: fills an array of the kept children's size by
   * index; an evaluation failure propagates and no array is returned.
   */
  method KieConfigurationElements(includes: Element, kids: seq<PomChild>, eval: Evaluator)
    returns (r: Result<seq<Element>, EvaluationError>)
    ensures r == KieElements(includes, kids, eval)
  {
    var toReturn := new Element[|kids|];
    for i := 0 to toReturn.Length
      invariant KieElements(includes, kids[..i], eval) == Success(toReturn[..i])
    {
      assert kids[..i + 1][..i] == kids[..i];
      if kids[i].name == INCLUDES {
        toReturn[i] := includes;
      } else {
        var element := KieElement(kids[i], eval);
        if element.Failure? {
          KieKeepsFailing(includes, kids, i + 1, eval);
          return Failure(element.error);
        }
        toReturn[i] := element.value;
      }
      assert toReturn[..i + 1] == toReturn[..i] + [toReturn[i]];
    }
    assert kids[..|kids|] == kids && toReturn[..] == toReturn[..toReturn.Length];
    return Success(toReturn[..]);
  }

  /**
   * The net.cardosi `getConfigurationElements`: appends to a list, skipping the children
   * whose `getElement` is empty; an evaluation failure propagates and no list is returned.
   */
  method CardosiConfigurationElements(includes: Element, kids: seq<PomChild>, eval: Evaluator)
    returns (r: Result<seq<Element>, EvaluationError>)
    ensures r == CardosiElements(includes, kids, eval)
  {
    var tmpList: seq<Element> := [];
    for i := 0 to |kids|
      invariant CardosiElements(includes, kids[..i], eval) == Success(tmpList)
    {
      assert kids[..i + 1][..i] == kids[..i];
      if kids[i].name == INCLUDES {
        tmpList := tmpList + [includes];
      } else {
        var element := CardosiElement(kids[i], eval);
        if element.Failure? {
          CardosiKeepsFailing(includes, kids, i + 1, eval);
          return Failure(element.error);
        }
        if element.value.Some? {
          tmpList := tmpList + [element.value.value];
        }
      }
    }
    assert kids[..|kids|] == kids;
    return Success(tmpList);
  }

  /** The file paths listed by an includes element: the values of its children, `null` read as "". */
  function IncludedFiles(includes: Element): (files: seq<string>)
    ensures |files| == |includes.children|
  {
    seq(|includes.children|, i requires 0 <= i < |includes.children| =>
      if includes.children[i].value.Some? then includes.children[i].value.value else "")
  }

  /**
   * `getIncludesElement`: an element named `includes` with no value and one unnamed child
   * per file, in the order of the list, whose value is the file's path.
   */
  method GetIncludesElement(files: seq<string>) returns (r: Element)
    ensures r.name == INCLUDES && r.value == None && |r.children| == |files|
    ensures forall i :: 0 <= i < |files| ==> r.children[i] == Element("", Some(files[i]), [])
    ensures IncludedFiles(r) == files
  {
    var children := new Element[|files|];
    for i := 0 to children.Length
      invariant forall k :: 0 <= k < i ==> children[k] == Element("", Some(files[k]), [])
    {
      children[i] := Element("", Some(files[i]), []);
    }
    r := Element(INCLUDES, None, children[..]);
  }

  /** The element list of either copy. */
  function ConfigurationSpec(copy: Copy, includes: Element, kids: seq<PomChild>, eval: Evaluator): Result<seq<Element>, EvaluationError> {
    match copy
    case OrgKie => KieElements(includes, kids, eval)
    case NetCardosi => CardosiElements(includes, kids, eval)
  }

  /** Every element either copy emits is the includes element or is named after one of the children. */
  lemma ElementsNamedAfterChildren(copy: Copy, includes: Element, kids: seq<PomChild>, eval: Evaluator)
    ensures var r := ConfigurationSpec(copy, includes, kids, eval);
      r.Success? ==> forall e :: e in r.value ==> e == includes || exists i :: 0 <= i < |kids| && kids[i].name == e.name
  {
    var r := ConfigurationSpec(copy, includes, kids, eval);
    KieElementsSpec(includes, kids, eval);
    CardosiElementsSpec(includes, kids, eval);
    if r.Success? && copy == OrgKie {
      forall e | e in r.value ensures e == includes || exists i :: 0 <= i < |kids| && kids[i].name == e.name {
        var i :| 0 <= i < |r.value| && r.value[i] == e;
        assert r.value[i] == KieSlot(includes, kids[i], eval);
      }
    }
  }

  /** `getFormatterConfigurationElements` and `getImpsortConfigurationElements` differ only in the parameter list. */
  method ConfigurationElementsFor(copy: Copy, parameters: seq<string>, includes: Element, pom: seq<PomChild>, eval: Evaluator)
    returns (r: Result<seq<Element>, EvaluationError>)
    ensures r == ConfigurationSpec(copy, includes, PlexusConfigurations(pom, parameters), eval)
    ensures r.Success? ==> forall e :: e in r.value ==> e == includes || e.name in parameters
  {
    var plexusConfigurations := PlexusConfigurations(pom, parameters);
    if copy == OrgKie {
      r := KieConfigurationElements(includes, plexusConfigurations, eval);
    } else {
      r := CardosiConfigurationElements(includes, plexusConfigurations, eval);
    }
    ElementsNamedAfterChildren(copy, includes, plexusConfigurations, eval);
    if r.Success? {
      forall e | e in r.value && e != includes ensures e.name in parameters {
        var i :| 0 <= i < |plexusConfigurations| && plexusConfigurations[i].name == e.name;
        assert plexusConfigurations[i] in plexusConfigurations;
      }
    }
  }

  /**
   * `getFormatterConfigurationElements`: the elements for the formatter. With the includes
   * element of `GetIncludesElement`, every name emitted is in `FORMATTER_PARAMETERS`.
   */
  method GetFormatterConfigurationElements(copy: Copy, includes: Element, pom: seq<PomChild>, eval: Evaluator)
    returns (r: Result<seq<Element>, EvaluationError>)
    ensures r == ConfigurationSpec(copy, includes, PlexusConfigurations(pom, FormatterParameters), eval)
    ensures r.Success? ==> forall e :: e in r.value ==> e == includes || e.name in FormatterParameters
    ensures r.Success? && includes.name == INCLUDES ==> forall e :: e in r.value ==> e.name in FormatterParameters
  {
    assert FormatterParameters[6] == INCLUDES;
    r := ConfigurationElementsFor(copy, FormatterParameters, includes, pom, eval);
  }

  /**
   * `getImpsortConfigurationElements`: the elements for the import sorter. With the includes
   * element of `GetIncludesElement`, every name emitted is in `IMPSORT_PARAMETERS`.
   */
  method GetImpsortConfigurationElements(copy: Copy, includes: Element, pom: seq<PomChild>, eval: Evaluator)
    returns (r: Result<seq<Element>, EvaluationError>)
    ensures r == ConfigurationSpec(copy, includes, PlexusConfigurations(pom, ImpsortParameters), eval)
    ensures r.Success? ==> forall e :: e in r.value ==> e == includes || e.name in ImpsortParameters
    ensures r.Success? && includes.name == INCLUDES ==> forall e :: e in r.value ==> e.name in ImpsortParameters
  {
    assert ImpsortParameters[9] == INCLUDES;
    r := ConfigurationElementsFor(copy, ImpsortParameters, includes, pom, eval);
  }
}
