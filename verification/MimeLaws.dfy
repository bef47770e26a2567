/** Which of several media ranges decides about a type. */
module MimeLaws {
  import opened MimeParse
  import opened RouteEntry
  import opened Routes

  predicate NamesMain(target: Range, range: Range) {
    range.mainType == target.mainType
  }

  predicate NamesSub(target: Range, range: Range) {
    range.subType == target.subType
  }

  /** Some parameter apart from the quality is the same in both. */
  ghost predicate ShareParam(target: Range, range: Range) {
    exists k :: k in target.params && k in range.params && k != "q" && target.params[k] == range.params[k]
  }

  lemma SharesIff(target: Range, range: Range)
    ensures ShareParam(target, range) <==> exists k :: k in target.params && SameParam(target, range, k)
  {
    if k :| k in target.params && k in range.params && k != "q" && target.params[k] == range.params[k] {
      assert SameParam(target, range, k);
    }
  }

  /** One range is more specific than another: it names the main type and the other does not;
      or they are alike in that, and it names the subtype and the other does not; or they are
      alike in both, and it shares a parameter and the other does not. */
  ghost predicate MoreSpecific(target: Range, a: Range, b: Range) {
    || (NamesMain(target, a) && !NamesMain(target, b))
    || ((NamesMain(target, a) <==> NamesMain(target, b)) && NamesSub(target, a) && !NamesSub(target, b))
    || ((NamesMain(target, a) <==> NamesMain(target, b)) && (NamesSub(target, a) <==> NamesSub(target, b))
        && ShareParam(target, a) && !ShareParam(target, b))
  }

  /** The fitness orders ranges by how specific they are, and by nothing else. */
  lemma FitterIffMoreSpecific(target: Range, a: Range, b: Range)
    ensures RangeFitness(target, a) > RangeFitness(target, b) <==> MoreSpecific(target, a, b)
  {
    SharesIff(target, a);
    SharesIff(target, b);
    hide ShareParam, SameParam;
  }

  /** Two names of types, neither of them a wildcard, that differ. */
  predicate Clash(a: string, b: string) {
    a != b && a != "*" && b != "*"
  }

  predicate Applies(target: Range, range: Range) {
    !Clash(target.mainType, range.mainType) && !Clash(target.subType, range.subType)
  }

  lemma AppliesIff(target: Range, range: Range)
    ensures Compatible(target, range) <==> Applies(target, range)
  {}

  /** The range that decides: it applies, none that applies is more specific, and those before
      it that apply are less specific. */
  ghost predicate Decides(target: Range, ranges: seq<Range>, i: nat) {
    && i < |ranges| && Applies(target, ranges[i])
    && (forall j :: 0 <= j < |ranges| && Applies(target, ranges[j]) ==> !MoreSpecific(target, ranges[j], ranges[i]))
    && (forall j :: 0 <= j < i && Applies(target, ranges[j]) ==> MoreSpecific(target, ranges[i], ranges[j]))
  }

  /** The quality of a type is that of the range that decides, and there is none exactly if no
      range applies. */
  lemma DecidedBySpecificity(target: Range, ranges: seq<Range>)
    ensures BestFit(target, ranges).fitness >= 0 <==> exists j :: 0 <= j < |ranges| && Applies(target, ranges[j])
    ensures BestFit(target, ranges).fitness < 0 ==> BestFit(target, ranges).quality == 0.0
    ensures BestFit(target, ranges).fitness >= 0 ==>
      exists i: nat :: Decides(target, ranges, i) && BestFit(target, ranges).quality == ranges[i].quality
  {
    BestFitIsFirstBest(target, ranges);
    forall j | 0 <= j < |ranges| ensures Compatible(target, ranges[j]) <==> Applies(target, ranges[j]) {
      AppliesIff(target, ranges[j]);
    }
    var best := BestFit(target, ranges);
    hide Compatible, Applies, BestFit;
    if best.fitness >= 0 {
      var i :| 0 <= i < |ranges| && Compatible(target, ranges[i])
        && best == Fit(RangeFitness(target, ranges[i]), ranges[i].quality)
        && forall j :: 0 <= j < i && Compatible(target, ranges[j]) ==> RangeFitness(target, ranges[j]) < best.fitness;
      forall j | 0 <= j < |ranges| && Applies(target, ranges[j])
        ensures !MoreSpecific(target, ranges[j], ranges[i]) && (j < i ==> MoreSpecific(target, ranges[i], ranges[j]))
      {
        FitterIffMoreSpecific(target, ranges[j], ranges[i]);
        FitterIffMoreSpecific(target, ranges[i], ranges[j]);
      }
      assert Decides(target, ranges, i);
    }
  }

  predicate NamesExactly(target: Range, range: Range) {
    range.mainType == target.mainType && range.subType == target.subType
  }

  /** If some range names the type exactly, one of those decides, whatever the others say. */
  lemma ExactDecides(target: Range, ranges: seq<Range>, e: nat)
    requires e < |ranges| && NamesExactly(target, ranges[e])
    ensures exists i: nat ::
      i < |ranges| && NamesExactly(target, ranges[i]) && BestFit(target, ranges).quality == ranges[i].quality
  {
    DecidedBySpecificity(target, ranges);
    assert Applies(target, ranges[e]);
    hide BestFit, ShareParam;
    var i: nat :| Decides(target, ranges, i) && BestFit(target, ranges).quality == ranges[i].quality;
    assert !MoreSpecific(target, ranges[e], ranges[i]);
    assert NamesExactly(target, ranges[i]);
  }

  /** A type that the header names only to rule it out is never served, whatever its wildcards
      offer. */
  lemma RuledOutIsNotServed(parse: Parser, supported: set<string>, ranges: seq<Range>, s: string, r: string, e: nat)
    requires e < |ranges| && NamesExactly(parse(s), ranges[e])
    requires forall i :: 0 <= i < |ranges| && NamesExactly(parse(s), ranges[i]) ==> ranges[i].quality == 0.0
    requires r != NO_MIME_TYPE ==> Maximal(parse, ranges, supported, r) && FitOf(parse, ranges, r).quality != 0.0
    ensures r == NO_MIME_TYPE || r != s
  {
    ExactDecides(parse(s), ranges, e);
    hide BestFit, NamesExactly, Maximal;
  }

  /** The best of several types is the one with the fittest range, and among those with equally
      fit ones one of the highest quality. */
  lemma MaximalIff(parse: Parser, ranges: seq<Range>, supported: set<string>, s: string)
    ensures Maximal(parse, ranges, supported, s) <==>
      s in supported && forall t :: t in supported ==>
        || FitOf(parse, ranges, t).fitness < FitOf(parse, ranges, s).fitness
        || (FitOf(parse, ranges, t).fitness == FitOf(parse, ranges, s).fitness
            && FitOf(parse, ranges, t).quality <= FitOf(parse, ranges, s).quality)
  {
    hide FitOf;
  }

  lemma OneDecides(target: Range, ranges: seq<Range>, i: nat, j: nat)
    requires Decides(target, ranges, i) && Decides(target, ranges, j)
    ensures i == j
  {
    hide MoreSpecific, Applies;
  }

  /** An entry is among those that are accepted exactly if its type has a name and the range that
      decides about it does not rule it out. */
  lemma AcceptedIff(parse: Parser, ranges: seq<Range>, e: RouteEntry)
    ensures Accepted(parse, ranges, e) <==>
      e.acceptedType != "" && exists i: nat :: Decides(parse(e.acceptedType), ranges, i) && ranges[i].quality != 0.0
  {
    var target := parse(e.acceptedType);
    DecidedBySpecificity(target, ranges);
    assert FitOf(parse, ranges, e.acceptedType) == BestFit(target, ranges);
    hide BestFit, MoreSpecific, Applies, FitOf;
    if BestFit(target, ranges).fitness >= 0 {
      var i: nat :| Decides(target, ranges, i) && BestFit(target, ranges).quality == ranges[i].quality;
      forall j: nat | Decides(target, ranges, j) ensures j == i {
        OneDecides(target, ranges, j, i);
      }
    } else {
      forall i: nat ensures !Decides(target, ranges, i) {}
    }
  }
}
