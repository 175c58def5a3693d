/** The `--output-spaces` parser on the template registry and the specifiers of
    smriprep/cli/tests/test_utils.py, derived from the general lemmas of `OutputSpaces`.
    Specifiers are written as concatenations of their parts (`"MNIInfant" + ":" + "res-2"`
    for `MNIInfant:res-2`). */
module OutputSpacesExamples {
  import opened Wrappers
  import opened Strings
  import opened OutputSpaces

  /** The template registry the parser is checked against. */
  const TestTemplates: seq<string> := ["MNI152NLin2009cAsym", "MNIInfant", "MNI152NLin6Asym"]

  // ---------------------------------------------------------------------------------------
  // Specifiers of one and two groups

  /** A one-element result list. */
  lemma OnePair(r: Result<seq<Space>, Error>, x: Space)
    requires r.Ok? && |r.value| == 1 && r.value[0] == x
    ensures r == Ok([x])
  {
    assert r.value == [r.value[0]];
  }

  /** A two-element result list, element by element. */
  lemma TwoPairs(r: Result<seq<Space>, Error>, x: Space, y: Space)
    requires r.Ok? && |r.value| == 2 && r.value[0] == x && r.value[1] == y
    ensures r == Ok([x, y])
  {
    assert r.value == [r.value[0], r.value[1]];
  }

  /** Three pieces joined with a separator. */
  lemma JoinThree(a: string, b: string, c: string, sep: char)
    ensures JoinWith([a, b, c], sep) == a + [sep] + b + [sep] + c
  {
    assert [a, b, c][1..] == [b, c];
    assert [b, c][1..] == [c];
    assert JoinWith([b, c], sep) == b + [sep] + c;
  }

  /** The shape of `Name:group`: well formed, with `Name` as its name. */
  lemma GroupSpecShape(name: string, group: string, ms: seq<Modifier>)
    requires |ms| >= 1 && DistinctKeys(ms) && forall i :: 0 <= i < |ms| ==> WellFormedModifier(ms[i])
    requires group == RenderGroup(ms) && ':' !in name && ':' !in group
    ensures WellFormedSpec(name + ":" + group)
    ensures SpaceName(name + ":" + group) == name
    ensures Groups(name + ":" + group) == [group]
  {
    GroupOfModifiers(ms);
    SplitJoin([name, group], ':');
    assert JoinWith([name, group], ':') == name + ":" + group by {
      assert [name, group][1..] == [group];
    }
  }

  /** A well-formed specifier with one group yields one pair carrying that group's
      modifiers, or raises for an unknown name. */
  lemma OneGroupSpec(spec: string, name: string, group: string, registry: seq<string>, nonstandard: set<string>)
    requires WellFormedSpec(spec) && SpaceName(spec) == name && Groups(spec) == [group]
    ensures WellFormedGroup(group)
    ensures OutputSpace(spec, registry, nonstandard) ==
      if name in registry || name in nonstandard then Ok([Space(name, ParseGroup(group))])
      else Err(InvalidTemplate(name))
  {
    assert WellFormedGroup(Groups(spec)[0]);
    OutputSpaceContract(spec, registry, nonstandard);
    var r := OutputSpace(spec, registry, nonstandard);
    if r.Ok? {
      OnePair(r, Space(name, ParseGroup(group)));
    }
  }

  /** `Name:group`, for a group written from well-formed modifiers with distinct keys,
      yields one pair carrying the group's merged modifiers, or raises for an unknown
      name. */
  lemma OneGroup(name: string, group: string, ms: seq<Modifier>, registry: seq<string>, nonstandard: set<string>)
    requires |ms| >= 1 && DistinctKeys(ms) && forall i :: 0 <= i < |ms| ==> WellFormedModifier(ms[i])
    requires group == RenderGroup(ms) && ':' !in name && ':' !in group
    ensures WellFormedSpec(name + ":" + group)
    ensures OutputSpace(name + ":" + group, registry, nonstandard) ==
      if name in registry || name in nonstandard then Ok([Space(name, Merge(ms))])
      else Err(InvalidTemplate(name))
  {
    GroupSpecShape(name, group, ms);
    GroupOfModifiers(ms);
    OneGroupSpec(name + ":" + group, name, group, registry, nonstandard);
  }

  /** `Name:group1:group2` yields two pairs, in the groups' order. */
  lemma TwoGroups(name: string, ms1: seq<Modifier>, ms2: seq<Modifier>, registry: seq<string>, nonstandard: set<string>)
    requires |ms1| >= 1 && DistinctKeys(ms1) && forall i :: 0 <= i < |ms1| ==> WellFormedModifier(ms1[i])
    requires |ms2| >= 1 && DistinctKeys(ms2) && forall i :: 0 <= i < |ms2| ==> WellFormedModifier(ms2[i])
    requires ':' !in name && ':' !in RenderGroup(ms1) && ':' !in RenderGroup(ms2)
    requires name in registry || name in nonstandard
    ensures WellFormedSpec(name + ":" + RenderGroup(ms1) + ":" + RenderGroup(ms2))
    ensures OutputSpace(name + ":" + RenderGroup(ms1) + ":" + RenderGroup(ms2), registry, nonstandard)
            == Ok([Space(name, Merge(ms1)), Space(name, Merge(ms2))])
  {
    GroupOfModifiers(ms1);
    GroupOfModifiers(ms2);
    var groups := [RenderGroup(ms1), RenderGroup(ms2)];
    OnePairPerGroup(name, groups, registry, nonstandard);
    var parts := [name] + groups;
    assert parts == [name, groups[0], groups[1]];
    JoinThree(name, groups[0], groups[1], ':');
    var r := OutputSpace(JoinWith(parts, ':'), registry, nonstandard);
    assert ParseGroup(groups[0]) == Merge(ms1);
    assert ParseGroup(groups[1]) == Merge(ms2);
    TwoPairs(r, Space(name, Merge(ms1)), Space(name, Merge(ms2)));
  }

  /** A bare name, accepted or not. */
  lemma BareSpec(name: string, registry: seq<string>, nonstandard: set<string>)
    requires ':' !in name
    ensures WellFormedSpec(name)
    ensures OutputSpace(name, registry, nonstandard) ==
      if name in registry || name in nonstandard then Ok([Space(name, map[])])
      else Err(InvalidTemplate(name))
  {
    SplitNoSep(name, ':');
  }

  /** The `res-N` group. */
  lemma Resolution(n: string)
    requires n != [] && '-' !in n && ',' !in n && ':' !in n
    ensures RenderGroup([KeyValue("res", n)]) == "res-" + n
    ensures Merge([KeyValue("res", n)]) == map["res" := Text(n)]
  {
    var ms := [KeyValue("res", n)];
    var ts := seq(|ms|, i requires 0 <= i < |ms| => Render(ms[i]));
    assert ts[0] == "res" + "-" + n;
    assert "res" + "-" + n == "res-" + n;
    assert ts == ["res-" + n];
  }

  /** `Name:res-N`. */
  lemma WithResolution(name: string, n: string, registry: seq<string>, nonstandard: set<string>)
    requires ':' !in name && n != [] && '-' !in n && ',' !in n && ':' !in n
    ensures WellFormedSpec(name + ":" + "res-" + n)
    ensures OutputSpace(name + ":" + "res-" + n, registry, nonstandard) ==
      if name in registry || name in nonstandard then Ok([Space(name, map["res" := Text(n)])])
      else Err(InvalidTemplate(name))
  {
    Resolution(n);
    assert ':' !in "res-" + n;
    OneGroup(name, "res-" + n, [KeyValue("res", n)], registry, nonstandard);
    assert name + ":" + ("res-" + n) == name + ":" + "res-" + n;
  }

  /** Two modifiers rendered as one group. */
  lemma RenderTwo(m1: Modifier, m2: Modifier)
    ensures RenderGroup([m1, m2]) == Render(m1) + "," + Render(m2)
  {
    var ms := [m1, m2];
    var ts := seq(|ms|, i requires 0 <= i < |ms| => Render(ms[i]));
    assert ts == [Render(m1), Render(m2)];
    assert ts[1..] == [Render(m2)];
    assert JoinWith(ts, ',') == Render(m1) + [','] + JoinWith([Render(m2)], ',');
  }

  // ---------------------------------------------------------------------------------------
  // The assertions of `test_output_spaces`

  /** `MNI152NLin2009cAsym` gives one pair with no modifiers. */
  lemma ExampleBareName(nonstandard: set<string>)
    ensures WellFormedSpec("MNI152NLin2009cAsym")
      && OutputSpace("MNI152NLin2009cAsym", TestTemplates, nonstandard)
         == Ok([Space("MNI152NLin2009cAsym", map[])])
  {
    BareSpec("MNI152NLin2009cAsym", TestTemplates, nonstandard);
  }

  /** `MNI152NLin2009cAsym:native` maps the flag `native` to `True`. */
  lemma ExampleFlag(nonstandard: set<string>)
    ensures WellFormedSpec("MNI152NLin2009cAsym" + ":" + "native")
      && OutputSpace("MNI152NLin2009cAsym" + ":" + "native", TestTemplates, nonstandard)
         == Ok([Space("MNI152NLin2009cAsym", map["native" := Flag])])
  {
    var ms := [Bare("native")];
    assert RenderGroup(ms) == "native" by {
      assert seq(|ms|, i requires 0 <= i < |ms| => Render(ms[i])) == ["native"];
    }
    OneGroup("MNI152NLin2009cAsym", "native", ms, TestTemplates, nonstandard);
    assert Merge(ms) == map["native" := Flag];
  }

  /** `MNI152NLin2009cAsym:res-2` maps `res` to the string `"2"`. */
  lemma ExampleKeyValue(nonstandard: set<string>)
    ensures WellFormedSpec("MNI152NLin2009cAsym" + ":" + "res-" + "2")
      && OutputSpace("MNI152NLin2009cAsym" + ":" + "res-" + "2", TestTemplates, nonstandard)
         == Ok([Space("MNI152NLin2009cAsym", map["res" := Text("2")])])
  {
    WithResolution("MNI152NLin2009cAsym", "2", TestTemplates, nonstandard);
  }

  /** `MNI152NLin6Asym:res-1:res-2` gives two pairs, one per group, in order. */
  lemma ExampleTwoGroups(nonstandard: set<string>)
    ensures WellFormedSpec("MNI152NLin6Asym" + ":" + "res-" + "1" + ":" + "res-" + "2")
      && OutputSpace("MNI152NLin6Asym" + ":" + "res-" + "1" + ":" + "res-" + "2", TestTemplates, nonstandard)
         == Ok([Space("MNI152NLin6Asym", map["res" := Text("1")]), Space("MNI152NLin6Asym", map["res" := Text("2")])])
  {
    Resolution("1");
    Resolution("2");
    var ms1, ms2 := [KeyValue("res", "1")], [KeyValue("res", "2")];
    assert ':' !in RenderGroup(ms1) && ':' !in RenderGroup(ms2);
    TwoGroups("MNI152NLin6Asym", ms1, ms2, TestTemplates, nonstandard);
    assert "MNI152NLin6Asym" + ":" + RenderGroup(ms1) + ":" + RenderGroup(ms2)
        == "MNI152NLin6Asym" + ":" + "res-" + "1" + ":" + "res-" + "2";
  }

  /** `MNIInfant:res-2,cohort-1` merges both tokens into one mapping. */
  lemma ExampleTwoTokens(nonstandard: set<string>)
    ensures WellFormedSpec("MNIInfant" + ":" + "res-2" + "," + "cohort-1")
      && OutputSpace("MNIInfant" + ":" + "res-2" + "," + "cohort-1", TestTemplates, nonstandard)
         == Ok([Space("MNIInfant", map["res" := Text("2"), "cohort" := Text("1")])])
  {
    var ms := [KeyValue("res", "2"), KeyValue("cohort", "1")];
    RenderTwo(ms[0], ms[1]);
    assert ms == [ms[0], ms[1]];
    var group := "res-2" + "," + "cohort-1";
    assert RenderGroup(ms) == group;
    OneGroup("MNIInfant", group, ms, TestTemplates, nonstandard);
    assert "MNIInfant" + ":" + group == "MNIInfant" + ":" + "res-2" + "," + "cohort-1";
    assert Merge(ms) == map["res" := Text("2"), "cohort" := Text("1")];
  }

  /** `UnkownTemplate` is neither a template nor a nonstandard space, so it raises. */
  lemma ExampleUnknown(nonstandard: set<string>)
    requires "UnkownTemplate" !in nonstandard
    ensures WellFormedSpec("UnkownTemplate")
      && OutputSpace("UnkownTemplate", TestTemplates, nonstandard) == Err(InvalidTemplate("UnkownTemplate"))
  {
    BareSpec("UnkownTemplate", TestTemplates, nonstandard);
  }

  // ---------------------------------------------------------------------------------------
  // `_template` over lists of specifiers

  /** `_template` over two entries. */
  lemma TemplatePair(a: string, b: string, registry: seq<string>, nonstandard: set<string>)
    requires WellFormedSpec(a) && WellFormedSpec(b)
    ensures Template([a, b], registry, nonstandard) ==
      if OutputSpace(a, registry, nonstandard).Err? then OutputSpace(a, registry, nonstandard)
      else if OutputSpace(b, registry, nonstandard).Err? then OutputSpace(b, registry, nonstandard)
      else Ok(OutputSpace(a, registry, nonstandard).value + OutputSpace(b, registry, nonstandard).value)
  {
    TemplateConcat([a], [b], registry, nonstandard);
    TemplateSingle(a, registry, nonstandard);
    TemplateSingle(b, registry, nonstandard);
    assert [a] + [b] == [a, b];
  }

  /** `_template` over two accepted entries of one pair each. */
  lemma TemplateOkPair(a: string, b: string, x: Space, y: Space, registry: seq<string>, nonstandard: set<string>)
    requires WellFormedSpec(a) && WellFormedSpec(b)
    requires OutputSpace(a, registry, nonstandard) == Ok([x]) && OutputSpace(b, registry, nonstandard) == Ok([y])
    ensures Template([a, b], registry, nonstandard) == Ok([x, y])
  {
    TemplatePair(a, b, registry, nonstandard);
    assert [x] + [y] == [x, y];
  }

  /** `_template` over three accepted entries of one pair each. */
  lemma TemplateOkTriple(a: string, b: string, c: string, x: Space, y: Space, z: Space, registry: seq<string>, nonstandard: set<string>)
    requires WellFormedSpec(a) && WellFormedSpec(b) && WellFormedSpec(c)
    requires OutputSpace(a, registry, nonstandard) == Ok([x]) && OutputSpace(b, registry, nonstandard) == Ok([y])
    requires OutputSpace(c, registry, nonstandard) == Ok([z])
    ensures Template([a, b, c], registry, nonstandard) == Ok([x, y, z])
  {
    TemplateOkPair(a, b, x, y, registry, nonstandard);
    TemplateSingle(c, registry, nonstandard);
    TemplateConcat([a, b], [c], registry, nonstandard);
    assert [a, b] + [c] == [a, b, c];
    assert [x, y] + [z] == [x, y, z];
  }

  /** `_template` over an accepted entry followed by a rejected one. */
  lemma TemplateSecondFails(a: string, b: string, e: Error, registry: seq<string>, nonstandard: set<string>)
    requires WellFormedSpec(a) && WellFormedSpec(b)
    requires OutputSpace(a, registry, nonstandard).Ok? && OutputSpace(b, registry, nonstandard) == Err(e)
    ensures Template([a, b], registry, nonstandard) == Err(e)
  {
    TemplatePair(a, b, registry, nonstandard);
  }

  /** A bare accepted name followed by the same name with `res-N`: both pairs are kept. */
  lemma BareThenResolution(name: string, n: string, registry: seq<string>, nonstandard: set<string>)
    requires ':' !in name && (name in registry || name in nonstandard)
    requires n != [] && '-' !in n && ',' !in n && ':' !in n
    ensures WellFormedSpec(name) && WellFormedSpec(name + ":" + "res-" + n)
      && Template([name, name + ":" + "res-" + n], registry, nonstandard)
         == Ok([Space(name, map[]), Space(name, map["res" := Text(n)])])
  {
    BareSpec(name, registry, nonstandard);
    WithResolution(name, n, registry, nonstandard);
    TemplateOkPair(name, name + ":" + "res-" + n, Space(name, map[]), Space(name, map["res" := Text(n)]), registry, nonstandard);
  }

  /** Two accepted `Name:res-N` entries, in input order. */
  lemma TwoResolutions(name1: string, n1: string, name2: string, n2: string, registry: seq<string>, nonstandard: set<string>)
    requires ':' !in name1 && (name1 in registry || name1 in nonstandard)
    requires ':' !in name2 && (name2 in registry || name2 in nonstandard)
    requires n1 != [] && '-' !in n1 && ',' !in n1 && ':' !in n1
    requires n2 != [] && '-' !in n2 && ',' !in n2 && ':' !in n2
    ensures WellFormedSpec(name1 + ":" + "res-" + n1) && WellFormedSpec(name2 + ":" + "res-" + n2)
      && Template([name1 + ":" + "res-" + n1, name2 + ":" + "res-" + n2], registry, nonstandard)
         == Ok([Space(name1, map["res" := Text(n1)]), Space(name2, map["res" := Text(n2)])])
  {
    WithResolution(name1, n1, registry, nonstandard);
    WithResolution(name2, n2, registry, nonstandard);
    TemplateOkPair(name1 + ":" + "res-" + n1, name2 + ":" + "res-" + n2,
      Space(name1, map["res" := Text(n1)]), Space(name2, map["res" := Text(n2)]), registry, nonstandard);
  }

  /** An accepted `Name:res-N` entry, then an entry with an unknown name: the whole list
      fails with the unknown name. */
  lemma ResolutionThenUnknown(name: string, n: string, other: string, registry: seq<string>, nonstandard: set<string>)
    requires ':' !in name && (name in registry || name in nonstandard)
    requires n != [] && '-' !in n && ',' !in n && ':' !in n
    requires ':' !in other && other !in registry && other !in nonstandard
    ensures WellFormedSpec(name + ":" + "res-" + n) && WellFormedSpec(other + ":" + "res-" + n)
      && Template([name + ":" + "res-" + n, other + ":" + "res-" + n], registry, nonstandard)
         == Err(InvalidTemplate(other))
  {
    WithResolution(name, n, registry, nonstandard);
    WithResolution(other, n, registry, nonstandard);
    TemplateSecondFails(name + ":" + "res-" + n, other + ":" + "res-" + n, InvalidTemplate(other), registry, nonstandard);
  }

  /** An accepted `Name:res-N` entry, then a bare name: the bare name's pair follows when
      it is accepted, and the whole list fails when it is not. */
  lemma ResolutionThenBare(name: string, n: string, other: string, registry: seq<string>, nonstandard: set<string>)
    requires ':' !in name && (name in registry || name in nonstandard)
    requires n != [] && '-' !in n && ',' !in n && ':' !in n
    requires ':' !in other
    ensures WellFormedSpec(name + ":" + "res-" + n) && WellFormedSpec(other)
      && Template([name + ":" + "res-" + n, other], registry, nonstandard)
         == if other in registry || other in nonstandard
            then Ok([Space(name, map["res" := Text(n)]), Space(other, map[])])
            else Err(InvalidTemplate(other))
  {
    WithResolution(name, n, registry, nonstandard);
    BareSpec(other, registry, nonstandard);
    if other in registry || other in nonstandard {
      TemplateOkPair(name + ":" + "res-" + n, other,
        Space(name, map["res" := Text(n)]), Space(other, map[]), registry, nonstandard);
    } else {
      TemplateSecondFails(name + ":" + "res-" + n, other, InvalidTemplate(other), registry, nonstandard);
    }
  }

  /** An accepted `Name:res-N` entry, then two bare accepted names. */
  lemma ResolutionThenTwoBare(name: string, n: string, b1: string, b2: string, registry: seq<string>, nonstandard: set<string>)
    requires ':' !in name && (name in registry || name in nonstandard)
    requires n != [] && '-' !in n && ',' !in n && ':' !in n
    requires ':' !in b1 && (b1 in registry || b1 in nonstandard)
    requires ':' !in b2 && (b2 in registry || b2 in nonstandard)
    ensures WellFormedSpec(name + ":" + "res-" + n) && WellFormedSpec(b1) && WellFormedSpec(b2)
      && Template([name + ":" + "res-" + n, b1, b2], registry, nonstandard)
         == Ok([Space(name, map["res" := Text(n)]), Space(b1, map[]), Space(b2, map[])])
  {
    WithResolution(name, n, registry, nonstandard);
    BareSpec(b1, registry, nonstandard);
    BareSpec(b2, registry, nonstandard);
    TemplateOkTriple(name + ":" + "res-" + n, b1, b2,
      Space(name, map["res" := Text(n)]), Space(b1, map[]), Space(b2, map[]), registry, nonstandard);
  }

  // ---------------------------------------------------------------------------------------
  // The assertions of `test_template_parser`

  /** `['MNI152NLin2009cAsym']` gives one pair with no modifiers. */
  lemma ExampleTemplateSingle(nonstandard: set<string>)
    ensures WellFormedSpec("MNI152NLin2009cAsym")
      && Template(["MNI152NLin2009cAsym"], TestTemplates, nonstandard)
         == Ok([Space("MNI152NLin2009cAsym", map[])])
  {
    BareSpec("MNI152NLin2009cAsym", TestTemplates, nonstandard);
    TemplateSingle("MNI152NLin2009cAsym", TestTemplates, nonstandard);
  }

  /** The same template twice is kept twice, in order. */
  lemma ExampleTemplateDuplicate(nonstandard: set<string>)
    ensures WellFormedSpec("MNI152NLin2009cAsym") && WellFormedSpec("MNI152NLin2009cAsym" + ":" + "res-" + "2")
      && Template(["MNI152NLin2009cAsym", "MNI152NLin2009cAsym" + ":" + "res-" + "2"], TestTemplates, nonstandard)
         == Ok([Space("MNI152NLin2009cAsym", map[]), Space("MNI152NLin2009cAsym", map["res" := Text("2")])])
  {
    BareThenResolution("MNI152NLin2009cAsym", "2", TestTemplates, nonstandard);
  }

  /** Two different templates, in input order. */
  lemma ExampleTemplateOrder(nonstandard: set<string>)
    ensures WellFormedSpec("MNI152NLin2009cAsym" + ":" + "res-" + "1") && WellFormedSpec("MNI152NLin6Asym" + ":" + "res-" + "2")
      && Template(["MNI152NLin2009cAsym" + ":" + "res-" + "1", "MNI152NLin6Asym" + ":" + "res-" + "2"], TestTemplates, nonstandard)
         == Ok([Space("MNI152NLin2009cAsym", map["res" := Text("1")]), Space("MNI152NLin6Asym", map["res" := Text("2")])])
  {
    TwoResolutions("MNI152NLin2009cAsym", "1", "MNI152NLin6Asym", "2", TestTemplates, nonstandard);
  }

  /** An unknown second entry makes the whole list fail, although the first is valid. */
  lemma ExampleTemplateUnknown(nonstandard: set<string>)
    requires "UnkownTemplate" !in nonstandard
    ensures WellFormedSpec("MNI152NLin6Asym" + ":" + "res-" + "2") && WellFormedSpec("UnkownTemplate" + ":" + "res-" + "2")
      && Template(["MNI152NLin6Asym" + ":" + "res-" + "2", "UnkownTemplate" + ":" + "res-" + "2"], TestTemplates, nonstandard)
         == Err(InvalidTemplate("UnkownTemplate"))
  {
    ResolutionThenUnknown("MNI152NLin6Asym", "2", "UnkownTemplate", TestTemplates, nonstandard);
  }

  /** `func` before it is registered makes the whole list fail. */
  lemma ExampleTemplateUnregistered(nonstandard: set<string>)
    requires "func" !in nonstandard
    ensures WellFormedSpec("MNI152NLin6Asym" + ":" + "res-" + "2") && WellFormedSpec("func")
      && Template(["MNI152NLin6Asym" + ":" + "res-" + "2", "func"], TestTemplates, nonstandard)
         == Err(InvalidTemplate("func"))
  {
    ResolutionThenBare("MNI152NLin6Asym", "2", "func", TestTemplates, nonstandard);
  }

  /** A registered nonstandard name (`fsnative` from the start, `func` once registered) is
      a bare name with no modifiers. */
  lemma ExampleTemplateNonstandard(template: string, name: string, nonstandard: set<string>)
    requires template in TestTemplates && name in nonstandard && ':' !in name
    ensures ':' !in template
    ensures WellFormedSpec(template + ":" + "res-" + "2") && WellFormedSpec(name)
      && Template([template + ":" + "res-" + "2", name], TestTemplates, nonstandard)
         == Ok([Space(template, map["res" := Text("2")]), Space(name, map[])])
  {
    ResolutionThenBare(template, "2", name, TestTemplates, nonstandard);
  }

  /** After registering both `func` and `fsnative`, a list naming both parses. */
  lemma ExampleTemplateBothRegistered(nonstandard: set<string>)
    requires "func" in nonstandard && "fsnative" in nonstandard
    ensures WellFormedSpec("MNI152NLin2009cAsym" + ":" + "res-" + "2") && WellFormedSpec("func") && WellFormedSpec("fsnative")
      && Template(["MNI152NLin2009cAsym" + ":" + "res-" + "2", "func", "fsnative"], TestTemplates, nonstandard)
         == Ok([Space("MNI152NLin2009cAsym", map["res" := Text("2")]), Space("func", map[]), Space("fsnative", map[])])
  {
    ResolutionThenTwoBare("MNI152NLin2009cAsym", "2", "func", "fsnative", TestTemplates, nonstandard);
  }

  /** The stateful part of `test_template_parser`: with `fsnative` accepted from the start,
      `func` is rejected, then accepted once registered alone, and both parse once
      registered as a list. */
  method TemplateParserSession(initial: set<string>)
    returns (pt: ParseTemplates, funcBefore: Result<seq<Space>, Error>,
             funcAfter: Result<seq<Space>, Error>, bothAfter: Result<seq<Space>, Error>)
    requires "fsnative" in initial && "func" !in initial
    ensures funcBefore == Err(InvalidTemplate("func"))
    ensures funcAfter == Ok([Space("MNI152NLin2009cAsym", map["res" := Text("2")]), Space("func", map[])])
    ensures bothAfter ==
      Ok([Space("MNI152NLin2009cAsym", map["res" := Text("2")]), Space("func", map[]), Space("fsnative", map[])])
  {
    pt := new ParseTemplates(initial);
    ExampleTemplateUnregistered(pt.nonstandardSpaces);
    funcBefore := Template(["MNI152NLin6Asym" + ":" + "res-" + "2", "func"], TestTemplates, pt.nonstandardSpaces);
    pt.SetNonstandardSpaces(One("func"));
    ExampleTemplateNonstandard("MNI152NLin2009cAsym", "func", pt.nonstandardSpaces);
    funcAfter := Template(["MNI152NLin2009cAsym" + ":" + "res-" + "2", "func"], TestTemplates, pt.nonstandardSpaces);
    pt.SetNonstandardSpaces(Many(["func", "fsnative"]));
    ExampleTemplateBothRegistered(pt.nonstandardSpaces);
    bothAfter := Template(["MNI152NLin2009cAsym" + ":" + "res-" + "2", "func", "fsnative"], TestTemplates, pt.nonstandardSpaces);
  }
}
