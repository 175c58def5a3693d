/** `AggregateSurfaces` (smriprep/interfaces/surf.py): pool surface and morphometry files,
    order them by basename and file each under the first surface name its basename holds. */
module SurfAggregate {
  import opened Wrappers
  import opened Strings
  import opened Paths

  /** The seven kinds of file the interface has an output field for. */
  datatype Category = White | Pial | Inflated | Midthickness | Thickness | Sulc | Curv

  /** The name the pattern looks for, which is also the output field's name. */
  function Name(c: Category): string {
    match c
    case White => "white"
    case Pial => "pial"
    case Inflated => "inflated"
    case Midthickness => "midthickness"
    case Thickness => "thickness"
    case Sulc => "sulc"
    case Curv => "curv"
  }

  /** The alternatives of the named group, in the order the pattern lists them. */
  const Alternatives: seq<Category> := [White, Pial, Inflated, Midthickness, Thickness, Sulc, Curv]

  // ---------------------------------------------------------------------------------------
  // The pattern `(?:^|[^d])(?P<name>white|pial|inflated|midthickness|thickness|sulc|curv)`

  /** The name of `c` starts at index `k` of `s`. */
  predicate NameAt(s: string, k: nat, c: Category) {
    OccursAt(s, Name(c), k)
  }

  /** A name occurrence the pattern can match: at the very start, or right after a
      character other than `d`. */
  predicate ValidOccurrence(s: string, k: nat, c: Category) {
    NameAt(s, k, c) && (k == 0 || s[k - 1] != 'd')
  }

  /** The named group tried at index `k`: the first alternative that matches there. */
  function GroupAt(s: string, k: nat, alts: seq<Category>): (r: Option<Category>)
    ensures r.Some? ==> r.value in alts && NameAt(s, k, r.value)
    ensures r.None? ==> forall c :: c in alts ==> !NameAt(s, k, c)
  {
    if alts == [] then None
    else if NameAt(s, k, alts[0]) then Some(alts[0])
    else GroupAt(s, k, alts[1..])
  }

  /** No two names start at the same index: their first letters all differ. */
  lemma NamesExclusive(s: string, k: nat, c: Category, d: Category)
    requires NameAt(s, k, c) && NameAt(s, k, d)
    ensures c == d
  {
    assert Name(c)[0] == s[k] == Name(d)[0];
  }

  /** Because names are exclusive, the alternation finds exactly the name that is there. */
  lemma GroupAtIff(s: string, k: nat, c: Category)
    ensures GroupAt(s, k, Alternatives) == Some(c) <==> NameAt(s, k, c)
  {
    var g := GroupAt(s, k, Alternatives);
    assert c in Alternatives;
    if NameAt(s, k, c) {
      NamesExclusive(s, k, c, g.value);
    }
  }

  /** One attempt of the pattern at match start `i`: first the `^` branch (which only
      succeeds at 0, with the name at 0), then the `[^d]` branch (one non-`d` character,
      then the name right after it). */
  function MatchAt(s: string, i: nat): Option<Category>
    requires i <= |s|
  {
    var atStart := if i == 0 then GroupAt(s, 0, Alternatives) else None;
    if atStart.Some? then atStart
    else if i < |s| && s[i] != 'd' then GroupAt(s, i + 1, Alternatives)
    else None
  }

  /** `re.search` from match start `i` on: the leftmost start at which the pattern matches. */
  function SearchFrom(s: string, i: nat): Option<Category>
    requires i <= |s|
    decreases |s| - i
  {
    var m := MatchAt(s, i);
    if m.Some? || i == |s| then m else SearchFrom(s, i + 1)
  }

  /** `findre.search(basename)`, reduced to the named group of the match. */
  function Classify(basename: string): Option<Category> {
    SearchFrom(basename, 0)
  }

  /** No valid occurrence starts at an index in `[lo, hi)`. */
  ghost predicate NoValidBetween(s: string, lo: nat, hi: nat) {
    forall k: nat, c :: lo <= k < hi ==> !ValidOccurrence(s, k, c)
  }

  /** `c` occurs validly at `k` and no valid occurrence starts before `k`. */
  ghost predicate LeftmostValid(s: string, k: nat, c: Category) {
    ValidOccurrence(s, k, c) && NoValidBetween(s, 0, k)
  }

  /** The first name index that a match starting at `i` or later can cover. */
  function FirstCovered(i: nat): nat {
    if i == 0 then 0 else i + 1
  }

  /** A successful attempt at `i` matched the first valid occurrence from `FirstCovered(i)`,
      which is at index `k`. */
  lemma MatchAtFound(s: string, i: nat) returns (k: nat)
    requires i <= |s| && MatchAt(s, i).Some?
    ensures FirstCovered(i) <= k <= i + 1 && ValidOccurrence(s, k, MatchAt(s, i).value)
    ensures NoValidBetween(s, FirstCovered(i), k)
  {
    var c := MatchAt(s, i).value;
    if i == 0 && GroupAt(s, 0, Alternatives).Some? {
      k := 0;
    } else {
      k := i + 1;
      if i == 0 {
        forall d ensures !ValidOccurrence(s, 0, d) {
          GroupAtIff(s, 0, d);
        }
      }
    }
  }

  /** A failed attempt at `i` rules out every occurrence it could have matched. */
  lemma MatchAtNone(s: string, i: nat)
    requires i <= |s| && MatchAt(s, i).None?
    ensures NoValidBetween(s, FirstCovered(i), i + 2)
  {
    forall k: nat, d | FirstCovered(i) <= k < i + 2 ensures !ValidOccurrence(s, k, d) {
      GroupAtIff(s, k, d);
    }
  }

  /** Two adjacent ranges free of valid occurrences make one. */
  lemma NoValidJoin(s: string, lo: nat, mid: nat, hi: nat)
    requires NoValidBetween(s, lo, mid) && NoValidBetween(s, mid, hi)
    ensures NoValidBetween(s, lo, hi)
  {
  }

  /** The scan over match starts finds the valid occurrence with the smallest index `k`. */
  lemma {:induction false} SearchFromFinds(s: string, i: nat) returns (k: nat)
    requires i <= |s|
    ensures SearchFrom(s, i).None? ==> NoValidBetween(s, FirstCovered(i), |s| + 1)
    ensures SearchFrom(s, i).Some? ==>
      FirstCovered(i) <= k && ValidOccurrence(s, k, SearchFrom(s, i).value) && NoValidBetween(s, FirstCovered(i), k)
    decreases |s| - i
  {
    k := 0;
    if MatchAt(s, i).Some? {
      k := MatchAtFound(s, i);
    } else {
      MatchAtNone(s, i);
      if i < |s| {
        k := SearchFromFinds(s, i + 1);
        if SearchFrom(s, i + 1).Some? {
          NoValidJoin(s, FirstCovered(i), i + 2, k);
        } else {
          NoValidJoin(s, FirstCovered(i), i + 2, |s| + 1);
        }
      }
    }
  }

  /** The classification is the name at the leftmost valid occurrence, and nothing when
      there is no valid occurrence. */
  lemma ClassifyIsLeftmostName(s: string, c: Category)
    ensures Classify(s) == Some(c) <==> exists k: nat :: LeftmostValid(s, k, c)
    ensures Classify(s) == None <==> NoValidBetween(s, 0, |s| + 1)
  {
    var k0 := SearchFromFinds(s, 0);
    if Classify(s).None? {
      forall k: nat, d ensures !ValidOccurrence(s, k, d) {
        if k <= |s| {
          assert !ValidOccurrence(s, k, d);
        }
      }
    } else {
      var c0 := Classify(s).value;
      forall k: nat | LeftmostValid(s, k, c) ensures c == c0 {
        assert k == k0;
        NamesExclusive(s, k, c, c0);
      }
      assert LeftmostValid(s, k0, c0);
      assert !NoValidBetween(s, 0, |s| + 1) by {
        assert 0 <= k0 < |s| + 1 by {
          assert NameAt(s, k0, c0);
        }
      }
    }
  }

  /** The `thickness` inside a `midthickness` follows a `d`, so it is never a valid occurrence. */
  lemma ThicknessOccurrenceNotInMidthickness(s: string, k: nat)
    requires ValidOccurrence(s, k, Thickness)
    ensures !(k >= 3 && OccursAt(s, "midthickness", k - 3))
  {
  }

  /** A file is only ever filed under thickness for an occurrence that is not part of a
      `midthickness`. */
  lemma ThicknessNeverInsideMidthickness(s: string)
    requires Classify(s) == Some(Thickness)
    ensures exists k: nat :: LeftmostValid(s, k, Thickness) && !(k >= 3 && OccursAt(s, "midthickness", k - 3))
  {
    ClassifyIsLeftmostName(s, Thickness);
    var k: nat :| LeftmostValid(s, k, Thickness);
    ThicknessOccurrenceNotInMidthickness(s, k);
  }

  /** A `midthickness` that the pattern can match, with no valid name before it, files
      the basename under midthickness, not thickness. */
  lemma MidthicknessFiledAsMidthickness(s: string, m: nat)
    requires OccursAt(s, "midthickness", m) && (m == 0 || s[m - 1] != 'd')
    requires NoValidBetween(s, 0, m)
    ensures Classify(s) == Some(Midthickness)
  {
    assert LeftmostValid(s, m, Midthickness);
    ClassifyIsLeftmostName(s, Midthickness);
  }

  // ---------------------------------------------------------------------------------------
  // `sorted(inputs, key=os.path.basename)`

  /** Paths in ascending basename order. */
  ghost predicate SortedByBasename(ps: seq<string>) {
    forall i, j :: 0 <= i < j < |ps| ==> LexLe(Basename(ps[i]), Basename(ps[j]))
  }

  /** Inserts `p` before the first path whose basename is not smaller, so that paths
      with equal basenames keep their input order. */
  function InsertByBasename(p: string, ps: seq<string>): seq<string> {
    if ps == [] then [p]
    else if LexLe(Basename(p), Basename(ps[0])) then [p] + ps
    else [ps[0]] + InsertByBasename(p, ps[1..])
  }

  lemma {:induction false} InsertPermutes(p: string, ps: seq<string>)
    ensures multiset(InsertByBasename(p, ps)) == multiset(ps) + multiset{p}
  {
    if ps != [] && !LexLe(Basename(p), Basename(ps[0])) {
      InsertPermutes(p, ps[1..]);
      assert ps == [ps[0]] + ps[1..];
    }
  }

  /** A path whose basename is at most every basename of a sorted list can go in front. */
  lemma SortedCons(x: string, ps: seq<string>)
    requires SortedByBasename(ps)
    requires forall j :: 0 <= j < |ps| ==> LexLe(Basename(x), Basename(ps[j]))
    ensures SortedByBasename([x] + ps)
  {
    var r := [x] + ps;
    forall i, j | 0 <= i < j < |r| ensures LexLe(Basename(r[i]), Basename(r[j])) {
      if i > 0 {
        assert r[i] == ps[i - 1];
      }
      assert r[j] == ps[j - 1];
    }
  }

  /** Every element of a list drawn from `ps` and `p` has a basename at least `lo`'s
      when `p` and all of `ps` do. */
  lemma AboveAll(lo: string, p: string, ps: seq<string>, r: seq<string>)
    requires multiset(r) == multiset(ps) + multiset{p}
    requires LexLe(Basename(lo), Basename(p))
    requires forall j :: 0 <= j < |ps| ==> LexLe(Basename(lo), Basename(ps[j]))
    ensures forall j :: 0 <= j < |r| ==> LexLe(Basename(lo), Basename(r[j]))
  {
    forall j | 0 <= j < |r| ensures LexLe(Basename(lo), Basename(r[j])) {
      assert r[j] in multiset(r);
      if r[j] != p {
        assert r[j] in multiset(ps);
        var t :| 0 <= t < |ps| && ps[t] == r[j];
      }
    }
  }

  lemma {:induction false} InsertSorted(p: string, ps: seq<string>)
    requires SortedByBasename(ps)
    ensures SortedByBasename(InsertByBasename(p, ps))
  {
    if ps == [] {
    } else if LexLe(Basename(p), Basename(ps[0])) {
      forall j | 0 <= j < |ps| ensures LexLe(Basename(p), Basename(ps[j])) {
        if j > 0 {
          LexLeTransitive(Basename(p), Basename(ps[0]), Basename(ps[j]));
        }
      }
      SortedCons(p, ps);
    } else {
      var rest := InsertByBasename(p, ps[1..]);
      InsertSorted(p, ps[1..]);
      InsertPermutes(p, ps[1..]);
      LexLeTotal(Basename(p), Basename(ps[0]));
      AboveAll(ps[0], p, ps[1..], rest);
      SortedCons(ps[0], rest);
    }
  }

  /** `sorted(ps, key=os.path.basename)`, a stable insertion sort: a permutation of the
      input in ascending basename order. */
  function SortByBasename(ps: seq<string>): (r: seq<string>)
    ensures multiset(r) == multiset(ps)
    ensures SortedByBasename(r)
  {
    if ps == [] then []
    else
      var rest := SortByBasename(ps[1..]);
      InsertPermutes(ps[0], rest);
      InsertSorted(ps[0], rest);
      assert ps == [ps[0]] + ps[1..];
      InsertByBasename(ps[0], rest)
  }

  // ---------------------------------------------------------------------------------------
  // Grouping, for any classifier of paths

  /** The category a path is filed under, from its basename. */
  function CategoryOf(p: string): Option<Category> {
    Classify(Basename(p))
  }

  /** The paths of `ps` filed under `c`, in their order in `ps`. */
  function FilesOf(ps: seq<string>, classify: string -> Option<Category>, c: Category): seq<string> {
    if ps == [] then []
    else (if classify(ps[0]) == Some(c) then [ps[0]] else []) + FilesOf(ps[1..], classify, c)
  }

  /** `FilesOf` keeps exactly the paths of category `c`, each as often as in `ps`. */
  lemma {:induction false} FilesOfMultiset(ps: seq<string>, classify: string -> Option<Category>, c: Category)
    ensures forall x :: multiset(FilesOf(ps, classify, c))[x] == if classify(x) == Some(c) then multiset(ps)[x] else 0
  {
    if ps != [] {
      FilesOfMultiset(ps[1..], classify, c);
      assert ps == [ps[0]] + ps[1..];
    }
  }

  lemma {:induction false} FilesOfSnoc(ps: seq<string>, classify: string -> Option<Category>, p: string, c: Category)
    ensures FilesOf(ps + [p], classify, c) == FilesOf(ps, classify, c) + (if classify(p) == Some(c) then [p] else [])
  {
    if ps == [] {
      assert ps + [p] == [p];
    } else {
      assert (ps + [p])[1..] == ps[1..] + [p];
      FilesOfSnoc(ps[1..], classify, p, c);
    }
  }

  /** `container[found].append(p)` on a `defaultdict(list)`, when `p` matched. */
  function Filed(g: map<Category, seq<string>>, found: Option<Category>, p: string): map<Category, seq<string>> {
    match found
    case None => g
    case Some(c) => g[c := (if c in g then g[c] else []) + [p]]
  }

  /** The lists the interface sets after filing the paths of `ps` one by one; by
      `GroupingIsFilesOf`, one list per category that received at least one path. */
  function Grouping(ps: seq<string>, classify: string -> Option<Category>): map<Category, seq<string>> {
    if ps == [] then map[]
    else Filed(Grouping(ps[..|ps| - 1], classify), classify(ps[|ps| - 1]), ps[|ps| - 1])
  }

  /** Filing path by path gives, for each category, the paths of that category in input
      order, and sets only the categories that received a path. */
  lemma {:induction false} GroupingIsFilesOf(ps: seq<string>, classify: string -> Option<Category>)
    ensures forall c :: c in Grouping(ps, classify) <==> FilesOf(ps, classify, c) != []
    ensures forall c :: c in Grouping(ps, classify) ==> Grouping(ps, classify)[c] == FilesOf(ps, classify, c)
  {
    if ps != [] {
      var init, last := ps[..|ps| - 1], ps[|ps| - 1];
      assert ps == init + [last];
      GroupingIsFilesOf(init, classify);
      forall c {
        FilesOfSnoc(init, classify, last, c);
      }
    }
  }

  /** What the interface computes for the given surfaces and morphometrics. */
  function Aggregated(surfaces: seq<string>, morphometrics: seq<string>): map<Category, seq<string>> {
    Grouping(SortByBasename(surfaces + morphometrics), CategoryOf)
  }

  /** The loop of `_run_interface`: visit the paths in order and append each one that
      matches to its category's list in a `defaultdict(list)`. */
  method GroupFiles(ordered: seq<string>) returns (container: map<Category, seq<string>>)
    ensures container == Grouping(ordered, CategoryOf)
  {
    container := map[];
    var i := 0;
    while i < |ordered|
      invariant 0 <= i <= |ordered|
      invariant container == Grouping(ordered[..i], CategoryOf)
    {
      var surface := ordered[i];
      var found := CategoryOf(surface);
      ghost var before := container;
      if found.Some? {
        var name := found.value;
        var files := if name in container then container[name] else [];
        container := container[name := files + [surface]];
      }
      assert container == Filed(before, found, surface);
      assert ordered[..i + 1][..i] == ordered[..i];
      i := i + 1;
    }
    assert ordered[..i] == ordered;
  }

  /** `_run_interface` up to setting the outputs: pool the inputs, order them by basename
      and group them. */
  method Aggregate(surfaces: seq<string>, morphometrics: seq<string>)
      returns (container: map<Category, seq<string>>)
    ensures container == Aggregated(surfaces, morphometrics)
  {
    var ordered := SortByBasename(surfaces + morphometrics);
    container := GroupFiles(ordered);
  }

  // ---------------------------------------------------------------------------------------
  // What the aggregation guarantees

  /** Every grouped path is one of the inputs and is filed under the category of its
      basename, so it is filed under exactly one category. */
  lemma AggregatedFilesAreClassifiedInputs(surfaces: seq<string>, morphometrics: seq<string>, c: Category, p: string)
    requires c in Aggregated(surfaces, morphometrics) && p in Aggregated(surfaces, morphometrics)[c]
    ensures p in surfaces + morphometrics
    ensures CategoryOf(p) == Some(c)
  {
    var ps := SortByBasename(surfaces + morphometrics);
    GroupingIsFilesOf(ps, CategoryOf);
    FilesOfMultiset(ps, CategoryOf, c);
    assert p in multiset(FilesOf(ps, CategoryOf, c));
    assert p in multiset(ps);
  }

  /** Each category's list holds exactly the inputs of that category, duplicates included;
      an input that matches no name is in no list. */
  lemma AggregatedListsAreExactlyTheInputs(surfaces: seq<string>, morphometrics: seq<string>, c: Category)
    ensures forall x :: multiset(if c in Aggregated(surfaces, morphometrics) then Aggregated(surfaces, morphometrics)[c] else [])[x]
                        == if CategoryOf(x) == Some(c) then multiset(surfaces + morphometrics)[x] else 0
  {
    var ps := SortByBasename(surfaces + morphometrics);
    GroupingIsFilesOf(ps, CategoryOf);
    FilesOfMultiset(ps, CategoryOf, c);
  }

  /** A category is set exactly when some input is filed under it. */
  lemma AggregatedKeys(surfaces: seq<string>, morphometrics: seq<string>, c: Category)
    ensures c in Aggregated(surfaces, morphometrics) <==>
            exists p :: p in surfaces + morphometrics && CategoryOf(p) == Some(c)
  {
    var inputs := surfaces + morphometrics;
    var ps := SortByBasename(inputs);
    GroupingIsFilesOf(ps, CategoryOf);
    if exists p :: p in inputs && CategoryOf(p) == Some(c) {
      var p :| p in inputs && CategoryOf(p) == Some(c);
      FilesOfMultiset(ps, CategoryOf, c);
      assert multiset(FilesOf(ps, CategoryOf, c))[p] == multiset(inputs)[p] > 0;
    }
    if c in Aggregated(surfaces, morphometrics) {
      var p := FilesOf(ps, CategoryOf, c)[0];
      AggregatedFilesAreClassifiedInputs(surfaces, morphometrics, c, p);
    }
  }

  /** A lower bound on every basename of `ps` bounds those `FilesOf` keeps. */
  lemma {:induction false} FilesOfBounded(lo: string, ps: seq<string>, classify: string -> Option<Category>, c: Category)
    requires forall j :: 0 <= j < |ps| ==> LexLe(Basename(lo), Basename(ps[j]))
    ensures forall j :: 0 <= j < |FilesOf(ps, classify, c)| ==> LexLe(Basename(lo), Basename(FilesOf(ps, classify, c)[j]))
  {
    if ps != [] {
      forall j | 0 <= j < |ps[1..]| ensures LexLe(Basename(lo), Basename(ps[1..][j])) {
        assert ps[1..][j] == ps[j + 1];
      }
      FilesOfBounded(lo, ps[1..], classify, c);
      var rest := FilesOf(ps[1..], classify, c);
      var r := FilesOf(ps, classify, c);
      forall j | 0 <= j < |r| ensures LexLe(Basename(lo), Basename(r[j])) {
        if classify(ps[0]) != Some(c) {
          assert r[j] == rest[j];
        } else if j > 0 {
          assert r[j] == rest[j - 1];
        } else {
          assert r[j] == ps[0];
        }
      }
    }
  }

  lemma {:induction false} FilesOfSorted(ps: seq<string>, classify: string -> Option<Category>, c: Category)
    requires SortedByBasename(ps)
    ensures SortedByBasename(FilesOf(ps, classify, c))
  {
    if ps != [] {
      var rest := FilesOf(ps[1..], classify, c);
      FilesOfSorted(ps[1..], classify, c);
      if classify(ps[0]) == Some(c) {
        forall j | 0 <= j < |ps[1..]| ensures LexLe(Basename(ps[0]), Basename(ps[1..][j])) {
          assert ps[1..][j] == ps[j + 1];
        }
        FilesOfBounded(ps[0], ps[1..], classify, c);
        SortedCons(ps[0], rest);
      }
    }
  }

  /** Within each category the files come in ascending basename order. */
  lemma AggregatedListsSorted(surfaces: seq<string>, morphometrics: seq<string>, c: Category)
    requires c in Aggregated(surfaces, morphometrics)
    ensures SortedByBasename(Aggregated(surfaces, morphometrics)[c])
  {
    GroupingIsFilesOf(SortByBasename(surfaces + morphometrics), CategoryOf);
    FilesOfSorted(SortByBasename(surfaces + morphometrics), CategoryOf, c);
  }

  /** The number of paths in `ps` that the classifier files somewhere. */
  function MatchingCount(ps: seq<string>, classify: string -> Option<Category>): nat {
    if ps == [] then 0 else (if classify(ps[0]).Some? then 1 else 0) + MatchingCount(ps[1..], classify)
  }

  function Size(g: map<Category, seq<string>>, c: Category): nat {
    if c in g then |g[c]| else 0
  }

  /** The number of files over all seven output lists. */
  function GroupedCount(g: map<Category, seq<string>>): nat {
    Size(g, White) + Size(g, Pial) + Size(g, Inflated) + Size(g, Midthickness)
      + Size(g, Thickness) + Size(g, Sulc) + Size(g, Curv)
  }

  /** Filing a path that matched adds one to the total, in the one list it goes to. */
  lemma GroupedCountFiled(g: map<Category, seq<string>>, found: Option<Category>, p: string)
    ensures GroupedCount(Filed(g, found, p)) == GroupedCount(g) + (if found.Some? then 1 else 0)
  {
    var g' := Filed(g, found, p);
    match found
    case None =>
    case Some(c) =>
      assert Size(g', c) == Size(g, c) + 1;
      forall d | d != c ensures Size(g', d) == Size(g, d) { }
      match c
      case White =>
      case Pial =>
      case Inflated =>
      case Midthickness =>
      case Thickness =>
      case Sulc =>
      case Curv =>
  }

  lemma {:induction false} GroupedCountIsMatchingCount(ps: seq<string>, classify: string -> Option<Category>)
    ensures GroupedCount(Grouping(ps, classify)) == MatchingCount(ps, classify)
  {
    if ps != [] {
      var last := ps[|ps| - 1];
      var init := ps[..|ps| - 1];
      assert ps == init + [last];
      GroupedCountIsMatchingCount(init, classify);
      MatchingCountSnoc(init, classify, last);
      GroupedCountFiled(Grouping(init, classify), classify(last), last);
    }
  }

  lemma {:induction false} MatchingCountSnoc(ps: seq<string>, classify: string -> Option<Category>, p: string)
    ensures MatchingCount(ps + [p], classify) == MatchingCount(ps, classify) + (if classify(p).Some? then 1 else 0)
  {
    if ps == [] {
      assert ps + [p] == [p];
    } else {
      assert (ps + [p])[1..] == ps[1..] + [p];
      MatchingCountSnoc(ps[1..], classify, p);
    }
  }

  lemma {:induction false} MatchingCountInsert(p: string, ps: seq<string>, classify: string -> Option<Category>)
    ensures MatchingCount(InsertByBasename(p, ps), classify)
            == MatchingCount(ps, classify) + (if classify(p).Some? then 1 else 0)
  {
    if ps != [] && !LexLe(Basename(p), Basename(ps[0])) {
      MatchingCountInsert(p, ps[1..], classify);
    }
  }

  /** Sorting does not change how many paths match. */
  lemma {:induction false} MatchingCountSort(ps: seq<string>, classify: string -> Option<Category>)
    ensures MatchingCount(SortByBasename(ps), classify) == MatchingCount(ps, classify)
  {
    if ps != [] {
      MatchingCountSort(ps[1..], classify);
      MatchingCountInsert(ps[0], SortByBasename(ps[1..]), classify);
    }
  }

  /** The grouped files number exactly the inputs whose basename matches a name. */
  lemma AggregatedCount(surfaces: seq<string>, morphometrics: seq<string>)
    ensures GroupedCount(Aggregated(surfaces, morphometrics)) == MatchingCount(surfaces + morphometrics, CategoryOf)
  {
    var ps := SortByBasename(surfaces + morphometrics);
    GroupedCountIsMatchingCount(ps, CategoryOf);
    MatchingCountSort(surfaces + morphometrics, CategoryOf);
  }

  /** The nipype interface; `results` holds the output fields set so far. */
  class AggregateSurfaces {
    var results: map<Category, seq<string>>

    constructor ()
      ensures results == map[]
    {
      results := map[];
    }

    /** `_run_interface`: build the groups, then set one output field per group. */
    method RunInterface(surfaces: seq<string>, morphometrics: seq<string>)
      modifies this
      ensures results == old(results) + Aggregated(surfaces, morphometrics)
    {
      var container := Aggregate(surfaces, morphometrics);
      results := results + container;
    }
  }
}
