/** Choosing the best of several media types for an Accept header.

    Media ranges are taken as parsed, with a quality between nothing and one as a real
    number.
  */
module MimeParse {

  const NO_MIME_TYPE := ""

  /** A media range.  The parameters always have a "q". */
  datatype Range = Range(mainType: string, subType: string, params: map<string, string>, quality: real)

  datatype Fit = Fit(fitness: int, quality: real)

  predicate Less(a: Fit, b: Fit) {
    a.fitness < b.fitness || (a.fitness == b.fitness && a.quality < b.quality)
  }

  predicate Covers(a: string, b: string) {
    a == b || a == "*" || b == "*"
  }

  predicate Compatible(target: Range, range: Range) {
    Covers(target.mainType, range.mainType) && Covers(target.subType, range.subType)
  }

  /** How well the types fit, before the parameters. */
  function TypeFitness(target: Range, range: Range): int {
    (if range.mainType == target.mainType then 100 else 0) + (if range.subType == target.subType then 10 else 0)
  }

  predicate SameParam(target: Range, range: Range, k: string) {
    k != "q" && k in target.params && k in range.params && target.params[k] == range.params[k]
  }

  /** One parameter in common counts for one, and more do not count for more. */
  function RangeFitness(target: Range, range: Range): int {
    TypeFitness(target, range) + if exists k :: k in target.params && SameParam(target, range, k) then 1 else 0
  }

  /** The best fit, and the quality of the first range that fits that well. */
  function BestFit(target: Range, ranges: seq<Range>): Fit {
    if ranges == [] then Fit(-1, 0.0)
    else
      var best, range := BestFit(target, ranges[..|ranges| - 1]), ranges[|ranges| - 1];
      if Compatible(target, range) && RangeFitness(target, range) > best.fitness
      then Fit(RangeFitness(target, range), range.quality)
      else best
  }

  /** Every compatible range fits at most as well as the best; there is none exactly when the
      best is below zero; otherwise the best comes from the first range that fits so well. */
  lemma {:induction false} BestFitIsFirstBest(target: Range, ranges: seq<Range>)
    ensures var best := BestFit(target, ranges);
      && (forall i :: 0 <= i < |ranges| && Compatible(target, ranges[i]) ==> RangeFitness(target, ranges[i]) <= best.fitness)
      && (best.fitness < 0 ==> best == Fit(-1, 0.0) && forall i :: 0 <= i < |ranges| ==> !Compatible(target, ranges[i]))
      && (best.fitness >= 0 ==> exists i ::
            && 0 <= i < |ranges| && Compatible(target, ranges[i])
            && best == Fit(RangeFitness(target, ranges[i]), ranges[i].quality)
            && forall j :: 0 <= j < i && Compatible(target, ranges[j]) ==> RangeFitness(target, ranges[j]) < best.fitness)
    decreases |ranges|
  {
    if ranges != [] {
      var n := |ranges| - 1;
      BestFitIsFirstBest(target, ranges[..n]);
      assert forall i :: 0 <= i < n ==> ranges[..n][i] == ranges[i];
      assert Compatible(target, ranges[n]) ==> RangeFitness(target, ranges[n]) >= 0;
      hide RangeFitness, Compatible;
    }
  }

  /** The better of what there was and what the parameters seen so far make of a range. */
  function Better(before: Fit, target: Range, range: Range, seen: set<string>): Fit {
    var fitness := TypeFitness(target, range) + if exists k :: k in seen && SameParam(target, range, k) then 1 else 0;
    if seen != {} && fitness > before.fitness then Fit(fitness, range.quality) else before
  }

  lemma BetterStep(before: Fit, target: Range, range: Range, seen: set<string>, k: string)
    requires k in target.params
    ensures var now := Better(before, target, range, seen);
      var fitness := TypeFitness(target, range) + if SameParam(target, range, k) then 1 else 0;
      Better(before, target, range, seen + {k}) == if fitness > now.fitness then Fit(fitness, range.quality) else now
  {
    assert (exists j :: j in seen + {k} && SameParam(target, range, j)) <==>
           (exists j :: j in seen && SameParam(target, range, j)) || SameParam(target, range, k);
  }

  lemma BetterAll(before: Fit, target: Range, range: Range)
    requires "q" in target.params
    ensures Better(before, target, range, target.params.Keys) ==
      if RangeFitness(target, range) > before.fitness then Fit(RangeFitness(target, range), range.quality) else before
  {
    assert (exists k :: k in target.params.Keys && SameParam(target, range, k)) <==>
           (exists k :: k in target.params && SameParam(target, range, k));
  }

  /** The loop over the parameters of the target, in whatever order they come. */
  method CompareRange(target: Range, range: Range, best: Fit) returns (r: Fit)
    requires "q" in target.params
    ensures r == if RangeFitness(target, range) > best.fitness then Fit(RangeFitness(target, range), range.quality) else best
  {
    var bestFitness, bestFitQ := best.fitness, best.quality;
    var keys := target.params.Keys;
    ghost var seen: set<string> := {};
    while keys != {}
      invariant keys + seen == target.params.Keys
      invariant Fit(bestFitness, bestFitQ) == Better(best, target, range, seen)
      decreases |keys|
    {
      var k :| k in keys;
      keys := keys - {k};
      var paramMatches := 0;
      if k != "q" && k in range.params && target.params[k] == range.params[k] {
        paramMatches := paramMatches + 1;
      }
      var fitness := if range.mainType == target.mainType then 100 else 0;
      fitness := fitness + if range.subType == target.subType then 10 else 0;
      fitness := fitness + paramMatches;
      BetterStep(best, target, range, seen, k);
      seen := seen + {k};
      if fitness > bestFitness {
        bestFitness := fitness;
        bestFitQ := range.quality;
      }
    }
    BetterAll(best, target, range);
    assert seen == target.params.Keys;
    return Fit(bestFitness, bestFitQ);
  }

  method FitnessAndQualityParsed(target: Range, parsedRanges: seq<Range>) returns (r: Fit)
    requires "q" in target.params
    ensures r == BestFit(target, parsedRanges)
  {
    r := Fit(-1, 0.0);
    for i := 0 to |parsedRanges|
      invariant r == BestFit(target, parsedRanges[..i])
    {
      var range := parsedRanges[i];
      assert parsedRanges[..i + 1][..i] == parsedRanges[..i];
      if (target.mainType == range.mainType || range.mainType == "*" || target.mainType == "*")
         && (target.subType == range.subType || range.subType == "*" || target.subType == "*") {
        r := CompareRange(target, range, r);
      }
    }
    assert parsedRanges[..|parsedRanges|] == parsedRanges;
  }

  type Parser = string -> Range

  ghost predicate HasQ(parse: Parser) {
    forall s :: "q" in parse(s).params
  }

  function FitOf(parse: Parser, ranges: seq<Range>, s: string): Fit {
    BestFit(parse(s), ranges)
  }

  /** No supported type fits better. */
  ghost predicate Maximal(parse: Parser, ranges: seq<Range>, supported: set<string>, s: string) {
    s in supported && forall t :: t in supported ==> !Less(FitOf(parse, ranges, s), FitOf(parse, ranges, t))
  }

  /** The type at the end of the list of fits, sorted from worst to best; the order of equal
      ones is that in which the types come, which is any. */
  method BestMatch(parse: Parser, supported: set<string>, ranges: seq<Range>) returns (r: string)
    requires supported != {} && HasQ(parse)
    ensures r == NO_MIME_TYPE ==>
      exists s :: Maximal(parse, ranges, supported, s) && (FitOf(parse, ranges, s).quality == 0.0 || s == NO_MIME_TYPE)
    ensures r != NO_MIME_TYPE ==> Maximal(parse, ranges, supported, r) && FitOf(parse, ranges, r).quality != 0.0
  {
    var rest := supported;
    var last :| last in rest;
    var lastFit := FitnessAndQualityParsed(parse(last), ranges);
    rest := rest - {last};
    while rest != {}
      invariant rest <= supported && last in supported && lastFit == FitOf(parse, ranges, last)
      invariant forall t :: t in supported && t !in rest ==> !Less(lastFit, FitOf(parse, ranges, t))
      decreases |rest|
    {
      hide FitOf;
      var s :| s in rest;
      rest := rest - {s};
      var fit := FitnessAndQualityParsed(parse(s), ranges);
      assert fit == FitOf(parse, ranges, s) by {
        FitOfIs(parse, ranges, s);
      }
      if !Less(fit, lastFit) {
        last, lastFit := s, fit;
      }
    }
    assert Maximal(parse, ranges, supported, last);
    return if lastFit.quality != 0.0 then last else NO_MIME_TYPE;
  }

  lemma FitOfIs(parse: Parser, ranges: seq<Range>, s: string)
    ensures FitOf(parse, ranges, s) == BestFit(parse(s), ranges)
  {}
}
