/** The `--output-spaces` parser (`output_space`, `_template` and
    `ParseTemplates.set_nonstandard_spaces` of smriprep's command-line utilities), as
    pinned down by smriprep/cli/tests/test_utils.py. A specifier is
    `Name[:group[:group...]]`; a group is comma-separated tokens, each a bare flag
    (`native`) or a `key-value` pair (`res-2`). */
module OutputSpaces {
  import opened Wrappers
  import opened Strings

  /** A modifier's value: Python's `True` for a bare flag, or the text after the dash. */
  datatype Value = Flag | Text(text: string)

  /** One token of a modifier group. */
  datatype Modifier = Bare(key: string) | KeyValue(key: string, value: string)

  /** A parsed `(name, modifiers)` pair. */
  datatype Space = Space(name: string, modifiers: map<string, Value>)

  /** The `ValueError` raised for a name that is neither a template nor a nonstandard space. */
  datatype Error = InvalidTemplate(name: string)

  // ---------------------------------------------------------------------------------------
  // The shapes the tests use

  /** A token the tests fix the meaning of: a non-empty key, then optionally one dash and
      a non-empty value. */
  predicate WellFormedToken(t: string) {
    var parts := Split(t, '-');
    |parts| <= 2 && forall i :: 0 <= i < |parts| ==> parts[i] != []
  }

  /** A token's text: the inverse of `ParseToken`. */
  function Render(m: Modifier): string {
    match m
    case Bare(k) => k
    case KeyValue(k, v) => k + "-" + v
  }

  /** A modifier that can appear in a specifier: non-empty parts free of separators. */
  predicate WellFormedModifier(m: Modifier) {
    && m.key != [] && '-' !in m.key && ',' !in m.key && ':' !in m.key
    && (m.KeyValue? ==> m.value != [] && '-' !in m.value && ',' !in m.value && ':' !in m.value)
  }

  function ParseToken(t: string): (m: Modifier)
    requires WellFormedToken(t)
    ensures Render(m) == t
    ensures m.Bare? <==> '-' !in t
  {
    var parts := Split(t, '-');
    SplitPieces(t, '-');
    if |parts| == 1 then Bare(parts[0])
    else
      assert parts[1..] == [parts[1]];
      assert t == parts[0] + "-" + parts[1] by {
        assert JoinWith(parts[1..], '-') == parts[1];
      }
      KeyValue(parts[0], parts[1])
  }

  /** Rendering a modifier and parsing it back gives the modifier. */
  lemma ParseRender(m: Modifier)
    requires WellFormedModifier(m)
    ensures WellFormedToken(Render(m)) && ParseToken(Render(m)) == m
  {
    match m
    case Bare(k) =>
      SplitNoSep(k, '-');
    case KeyValue(k, v) =>
      SplitJoin([k, v], '-');
      assert JoinWith([k, v], '-') == k + "-" + v by {
        assert [k, v][1..] == [v];
      }
  }

  function ValueOf(m: Modifier): Value {
    match m
    case Bare(_) => Flag
    case KeyValue(_, v) => Text(v)
  }

  /** The tokens of a group, parsed. */
  function Tokens(g: string): seq<string> {
    Split(g, ',')
  }

  /** The modifiers a group's tokens parse to, in order. */
  function Modifiers(g: string): (ms: seq<Modifier>)
    requires forall i :: 0 <= i < |Tokens(g)| ==> WellFormedToken(Tokens(g)[i])
    ensures |ms| == |Tokens(g)|
  {
    var ts := Tokens(g);
    seq(|ts|, i requires 0 <= i < |ts| => ParseToken(ts[i]))
  }

  /** A group whose tokens are well formed and name distinct keys. */
  predicate WellFormedGroup(g: string) {
    && (forall i :: 0 <= i < |Tokens(g)| ==> WellFormedToken(Tokens(g)[i]))
    && DistinctKeys(Modifiers(g))
  }

  /** The name, then the modifier groups, of a specifier. */
  function Groups(spec: string): seq<string> {
    Split(spec, ':')[1..]
  }

  function SpaceName(spec: string): string {
    Split(spec, ':')[0]
  }

  predicate WellFormedSpec(spec: string) {
    forall i :: 0 <= i < |Groups(spec)| ==> WellFormedGroup(Groups(spec)[i])
  }

  // ---------------------------------------------------------------------------------------
  // Parsing

  /** The keys in a list of modifiers are pairwise distinct. */
  predicate DistinctKeys(ms: seq<Modifier>) {
    forall i, j :: 0 <= i < j < |ms| ==> ms[i].key != ms[j].key
  }

  /** The mapping the modifiers of one group merge into. */
  function Merge(ms: seq<Modifier>): map<string, Value>
    requires DistinctKeys(ms)
  {
    if ms == [] then map[]
    else Merge(ms[..|ms| - 1])[ms[|ms| - 1].key := ValueOf(ms[|ms| - 1])]
  }

  /** A group's mapping has exactly the keys of its modifiers, each mapped to its value:
      `True` for a bare flag, the text after the dash for a pair. */
  lemma {:induction false} MergeContents(ms: seq<Modifier>)
    requires DistinctKeys(ms)
    ensures forall k :: k in Merge(ms) <==> exists i :: 0 <= i < |ms| && ms[i].key == k
    ensures forall i :: 0 <= i < |ms| ==> ms[i].key in Merge(ms) && Merge(ms)[ms[i].key] == ValueOf(ms[i])
  {
    if ms != [] {
      var init := ms[..|ms| - 1];
      var last := ms[|ms| - 1];
      MergeContents(init);
      forall k ensures k in Merge(ms) <==> exists i :: 0 <= i < |ms| && ms[i].key == k {
        if k in Merge(init) {
          var i :| 0 <= i < |init| && init[i].key == k;
          assert ms[i].key == k;
        }
        if exists i :: 0 <= i < |ms| && ms[i].key == k {
          var i :| 0 <= i < |ms| && ms[i].key == k;
          if i < |init| {
            assert init[i].key == k;
          }
        }
      }
      forall i | 0 <= i < |ms| ensures ms[i].key in Merge(ms) && Merge(ms)[ms[i].key] == ValueOf(ms[i]) {
        if i < |init| {
          assert init[i] == ms[i];
          assert ms[i].key != last.key;
        }
      }
    }
  }

  /** One modifier group: its comma-separated tokens merged into one mapping. */
  function ParseGroup(g: string): map<string, Value>
    requires WellFormedGroup(g)
  {
    Merge(Modifiers(g))
  }

  /** `output_space(spec)`: one pair per modifier group, all with the specifier's name, or a
      single pair with no modifiers; an unknown name raises. */
  function OutputSpace(spec: string, registry: seq<string>, nonstandard: set<string>): Result<seq<Space>, Error>
    requires WellFormedSpec(spec)
  {
    var name := SpaceName(spec);
    var groups := Groups(spec);
    if name !in registry && name !in nonstandard then Err(InvalidTemplate(name))
    else if groups == [] then Ok([Space(name, map[])])
    else Ok(seq(|groups|, i requires 0 <= i < |groups| => Space(name, ParseGroup(groups[i]))))
  }

  /** `_template(entries)`: the entries' pairs concatenated in order, or the error of the
      first entry that fails. */
  function Template(entries: seq<string>, registry: seq<string>, nonstandard: set<string>): Result<seq<Space>, Error>
    requires forall i :: 0 <= i < |entries| ==> WellFormedSpec(entries[i])
  {
    if entries == [] then Ok([])
    else
      match OutputSpace(entries[0], registry, nonstandard)
      case Err(e) => Err(e)
      case Ok(head) =>
        match Template(entries[1..], registry, nonstandard)
        case Err(e) => Err(e)
        case Ok(tail) => Ok(head + tail)
  }

  /** What `output_space` returns: an error naming the specifier's name exactly when that
      name is neither a template nor a nonstandard space; otherwise one pair per group (a
      single pair with no modifiers when there is no group), all carrying the name. */
  lemma OutputSpaceContract(spec: string, registry: seq<string>, nonstandard: set<string>)
    requires WellFormedSpec(spec)
    ensures var r := OutputSpace(spec, registry, nonstandard);
      && (r.Err? <==> SpaceName(spec) !in registry && SpaceName(spec) !in nonstandard)
      && (r.Err? ==> r.error == InvalidTemplate(SpaceName(spec)))
      && (r.Ok? ==> |r.value| == if Groups(spec) == [] then 1 else |Groups(spec)|)
      && (r.Ok? ==> forall i :: 0 <= i < |r.value| ==> r.value[i].name == SpaceName(spec))
      && (r.Ok? ==> forall i :: 0 <= i < |Groups(spec)| ==> r.value[i].modifiers == ParseGroup(Groups(spec)[i]))
      && (r.Ok? && Groups(spec) == [] ==> r.value[0].modifiers == map[])
  {
  }

  /** `_template` succeeds exactly when every entry does; when it fails, it fails with the
      error of one of its entries. */
  lemma {:induction false} TemplateContract(entries: seq<string>, registry: seq<string>, nonstandard: set<string>)
    requires forall i :: 0 <= i < |entries| ==> WellFormedSpec(entries[i])
    ensures var r := Template(entries, registry, nonstandard);
      && (r.Ok? <==> forall i :: 0 <= i < |entries| ==> OutputSpace(entries[i], registry, nonstandard).Ok?)
      && (r.Err? ==> exists i :: 0 <= i < |entries| && OutputSpace(entries[i], registry, nonstandard) == Err(r.error))
  {
    if entries != [] {
      var rest := entries[1..];
      TemplateContract(rest, registry, nonstandard);
      assert forall i :: 1 <= i < |entries| ==> entries[i] == rest[i - 1];
      var r := Template(entries, registry, nonstandard);
      if r.Err? && OutputSpace(entries[0], registry, nonstandard).Ok? {
        var j :| 0 <= j < |rest| && OutputSpace(rest[j], registry, nonstandard) == Err(r.error);
        assert entries[j + 1] == rest[j];
      }
      if !r.Ok? && OutputSpace(entries[0], registry, nonstandard).Ok? {
        var j :| 0 <= j < |rest| && !OutputSpace(rest[j], registry, nonstandard).Ok?;
        assert entries[j + 1] == rest[j];
      }
    }
  }

  // ---------------------------------------------------------------------------------------
  // The behaviour the tests assert

  /** A bare accepted name yields exactly one pair with no modifiers. */
  lemma BareName(name: string, registry: seq<string>, nonstandard: set<string>)
    requires ':' !in name
    requires name in registry || name in nonstandard
    ensures WellFormedSpec(name)
    ensures OutputSpace(name, registry, nonstandard) == Ok([Space(name, map[])])
  {
    SplitNoSep(name, ':');
  }

  /** `Name:group1:...:groupN` yields one pair per group, in order, all named `Name`, each
      with the group's merged modifiers. */
  lemma OnePairPerGroup(name: string, groups: seq<string>, registry: seq<string>, nonstandard: set<string>)
    requires ':' !in name && forall i :: 0 <= i < |groups| ==> ':' !in groups[i]
    requires |groups| >= 1 && forall i :: 0 <= i < |groups| ==> WellFormedGroup(groups[i])
    requires name in registry || name in nonstandard
    ensures WellFormedSpec(JoinWith([name] + groups, ':'))
    ensures var r := OutputSpace(JoinWith([name] + groups, ':'), registry, nonstandard);
      && r.Ok? && |r.value| == |groups|
      && forall i :: 0 <= i < |groups| ==> r.value[i] == Space(name, ParseGroup(groups[i]))
  {
    var parts := [name] + groups;
    SplitJoin(parts, ':');
    assert parts[1..] == groups;
  }

  /** A group's text: its modifiers rendered and joined with commas. */
  function RenderGroup(ms: seq<Modifier>): string
    requires |ms| >= 1
  {
    JoinWith(seq(|ms|, i requires 0 <= i < |ms| => Render(ms[i])), ',')
  }

  /** A group written from well-formed modifiers with distinct keys parses back to those
      modifiers, so it maps each key to its value (`native` to `True`, `res-2` to the
      string `"2"`) and several tokens merge into one mapping. */
  lemma GroupOfModifiers(ms: seq<Modifier>)
    requires |ms| >= 1 && DistinctKeys(ms)
    requires forall i :: 0 <= i < |ms| ==> WellFormedModifier(ms[i])
    ensures WellFormedGroup(RenderGroup(ms))
    ensures Modifiers(RenderGroup(ms)) == ms
    ensures ParseGroup(RenderGroup(ms)) == Merge(ms)
  {
    RenderedTokens(ms);
    ModifiersOfTokens(RenderGroup(ms), ms);
  }

  /** A group whose tokens parse one by one to `ms` has `ms` as its modifiers. */
  lemma ModifiersOfTokens(g: string, ms: seq<Modifier>)
    requires |Tokens(g)| == |ms|
    requires forall i :: 0 <= i < |ms| ==> WellFormedToken(Tokens(g)[i]) && ParseToken(Tokens(g)[i]) == ms[i]
    ensures Modifiers(g) == ms
  {
  }

  /** The tokens of a rendered group are the rendered modifiers, each parsing back. */
  lemma RenderedTokens(ms: seq<Modifier>)
    requires |ms| >= 1
    requires forall i :: 0 <= i < |ms| ==> WellFormedModifier(ms[i])
    ensures |Tokens(RenderGroup(ms))| == |ms|
    ensures forall i :: 0 <= i < |ms| ==>
      WellFormedToken(Tokens(RenderGroup(ms))[i]) && ParseToken(Tokens(RenderGroup(ms))[i]) == ms[i]
  {
    var ts := seq(|ms|, i requires 0 <= i < |ms| => Render(ms[i]));
    forall i | 0 <= i < |ts| ensures ',' !in ts[i] && WellFormedToken(ts[i]) && ParseToken(ts[i]) == ms[i] {
      ParseRender(ms[i]);
    }
    SplitJoin(ts, ',');
    assert Tokens(RenderGroup(ms)) == ts;
  }

  /** An unknown name makes `output_space` raise, whatever its modifiers. */
  lemma UnknownNameRaises(spec: string, registry: seq<string>, nonstandard: set<string>)
    requires WellFormedSpec(spec)
    requires SpaceName(spec) !in registry && SpaceName(spec) !in nonstandard
    ensures OutputSpace(spec, registry, nonstandard) == Err(InvalidTemplate(SpaceName(spec)))
  {
  }

  /** `_template` over two lists is their results concatenated in order (duplicates kept),
      or an error when either fails: no partial result. */
  lemma {:induction false} TemplateConcat(a: seq<string>, b: seq<string>, registry: seq<string>, nonstandard: set<string>)
    requires forall i :: 0 <= i < |a| ==> WellFormedSpec(a[i])
    requires forall i :: 0 <= i < |b| ==> WellFormedSpec(b[i])
    ensures forall i :: 0 <= i < |a + b| ==> WellFormedSpec((a + b)[i])
    ensures Template(a + b, registry, nonstandard) ==
      if Template(a, registry, nonstandard).Err? then Template(a, registry, nonstandard)
      else if Template(b, registry, nonstandard).Err? then Template(b, registry, nonstandard)
      else Ok(Template(a, registry, nonstandard).value + Template(b, registry, nonstandard).value)
  {
    if a == [] {
      assert a + b == b;
      assert Template(a, registry, nonstandard) == Ok([]);
      var tb := Template(b, registry, nonstandard);
      if tb.Ok? {
        assert [] + tb.value == tb.value;
      }
    } else {
      assert (a + b)[0] == a[0];
      assert (a + b)[1..] == a[1..] + b;
      TemplateConcat(a[1..], b, registry, nonstandard);
      var first := OutputSpace(a[0], registry, nonstandard);
      var rest := Template(a[1..], registry, nonstandard);
      var tb := Template(b, registry, nonstandard);
      if first.Ok? && rest.Ok? && tb.Ok? {
        assert first.value + (rest.value + tb.value) == (first.value + rest.value) + tb.value;
      }
    }
  }

  /** `_template` of one entry is `output_space` of it. */
  lemma TemplateSingle(e: string, registry: seq<string>, nonstandard: set<string>)
    requires WellFormedSpec(e)
    ensures Template([e], registry, nonstandard) == OutputSpace(e, registry, nonstandard)
  {
    assert [e][1..] == [];
    assert Template([], registry, nonstandard) == Ok([]);
    var r := OutputSpace(e, registry, nonstandard);
    if r.Ok? {
      assert r.value + [] == r.value;
    }
  }

  // ---------------------------------------------------------------------------------------
  // The nonstandard-space registry

  /** What `set_nonstandard_spaces` accepts: one name, or a list of names. */
  datatype Names = One(name: string) | Many(names: seq<string>)

  function NameSet(n: Names): set<string> {
    match n
    case One(x) => {x}
    case Many(xs) => set x | x in xs
  }

  /** `ParseTemplates`: holds the class-level set of nonstandard spaces that `output_space`
      accepts besides the template registry. */
  class ParseTemplates {
    var nonstandardSpaces: set<string>

    constructor (initial: set<string>)
      ensures nonstandardSpaces == initial
    {
      nonstandardSpaces := initial;
    }

    /** `set_nonstandard_spaces(names)`: afterwards every given name is accepted, and no
        name that was neither given nor accepted before is. */
    method SetNonstandardSpaces(names: Names)
      modifies this
      ensures NameSet(names) <= nonstandardSpaces <= old(nonstandardSpaces) + NameSet(names)
    {
      nonstandardSpaces := NameSet(names);
    }
  }
}
