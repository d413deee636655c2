/** collaborative_risk_propagation.py: how risky neighbours weigh on a subscriber. */
module Propagation {
  import opened Wrappers
  import opened Assessment
  import opened Trust

  datatype RelationshipType = SHARED_DEVICE | SHARED_IP | SHARED_SLICE | SHARED_AMF | CUSTOM

  datatype Relationship = Relationship(source: string, target: string, kind: RelationshipType, weight: real,
                                       timestamp: real)

  function DefaultWeight(kind: RelationshipType): real {
    match kind
    case SHARED_DEVICE => 0.50
    case SHARED_IP => 0.40
    case SHARED_SLICE => 0.30
    case SHARED_AMF => 0.20
    case CUSTOM => 1.0
  }

  datatype PropagatedLevel = NONE | LOW | MEDIUM | HIGH
  {
    function Rank(): nat {
      match this case NONE => 0 case LOW => 1 case MEDIUM => 2 case HIGH => 3
    }
  }

  /** propagated_score before it is rounded, which is also what the level is read from. */
  datatype PropagatedRisk = PropagatedRisk(supi: string, score: real, level: PropagatedLevel, neighbours: seq<string>)

  function Classify(score: real): PropagatedLevel {
    if score <= 0.0 then PropagatedLevel.NONE
    else if score <= 49.0 then PropagatedLevel.LOW
    else if score <= 74.0 then PropagatedLevel.MEDIUM
    else PropagatedLevel.HIGH
  }

  predicate Contributes(repo: Repository, r: Relationship, supi: string) {
    r.target == supi && r.source in repo && repo[r.source].trust in {WATCHLIST, BLOCKED}
  }

  /** The relationships whose source weighs on supi. */
  function Contributing(repo: Repository, rels: seq<Relationship>, supi: string): seq<Relationship> {
    if rels == [] then []
    else
      Contributing(repo, rels[..|rels| - 1], supi)
      + (if Contributes(repo, rels[|rels| - 1], supi) then [rels[|rels| - 1]] else [])
  }

  function Total(repo: Repository, rels: seq<Relationship>): real {
    if rels == [] then 0.0
    else
      var r := rels[|rels| - 1];
      Total(repo, rels[..|rels| - 1])
          + r.weight * (if r.source in repo then repo[r.source].latestScore as real else 0.0)
  }

  function Sources(rels: seq<Relationship>): (r: seq<string>)
    ensures |r| == |rels|
  {
    seq(|rels|, i requires 0 <= i < |rels| => rels[i].source)
  }

  function Capped(x: real): real {
    if x < 100.0 then x else 100.0
  }

  function Propagate(repo: Repository, rels: seq<Relationship>, supi: string): PropagatedRisk {
    var from := Contributing(repo, rels, supi);
    if from == [] then PropagatedRisk(supi, 0.0, PropagatedLevel.NONE, [])
    else
      var score := Capped(Total(repo, from));
      PropagatedRisk(supi, score, Classify(score), Sources(from))
  }

  function Without(rels: seq<Relationship>, source: string, target: string, kind: RelationshipType): seq<Relationship> {
    if rels == [] then []
    else
      var r := rels[|rels| - 1];
      Without(rels[..|rels| - 1], source, target, kind)
      + (if r.source == source && r.target == target && r.kind == kind then [] else [r])
  }

  class CollaborativeRiskPropagation {
    const repository: TrustRiskRepository
    var relationships: seq<Relationship>

    constructor (repository: TrustRiskRepository)
      ensures this.repository == repository && relationships == []
    {
      this.repository := repository;
      relationships := [];
    }

    method AddRelationship(source: string, target: string, kind: RelationshipType, weight: Option<real>,
                           timestamp: Option<real>)
      returns (r: Relationship)
      modifies this
      ensures r == Relationship(source, target, kind, weight.GetOr(DefaultWeight(kind)), timestamp.GetOr(0.0))
      ensures weight.None? ==>
                && (kind == SHARED_DEVICE ==> r.weight == 0.5) && (kind == SHARED_IP ==> r.weight == 0.4)
                && (kind == SHARED_SLICE ==> r.weight == 0.3) && (kind == SHARED_AMF ==> r.weight == 0.2)
                && (kind == CUSTOM ==> r.weight == 1.0)
      ensures relationships == old(relationships) + [r]
    {
      r := Relationship(source, target, kind, weight.GetOr(DefaultWeight(kind)), timestamp.GetOr(0.0));
      relationships := relationships + [r];
    }

    method RemoveRelationship(source: string, target: string, kind: RelationshipType)
      modifies this
      ensures relationships == Without(old(relationships), source, target, kind)
    {
      var kept := [];
      for i := 0 to |relationships|
        invariant relationships == old(relationships)
        invariant kept == Without(relationships[..i], source, target, kind)
      {
        var r := relationships[i];
        assert relationships[..i + 1][..i] == relationships[..i];
        if !(r.source == source && r.target == target && r.kind == kind) {
          kept := kept + [r];
        }
      }
      assert relationships[..|relationships|] == relationships;
      relationships := kept;
    }

    /** get_neighbors and the score loop, in one pass over the relationships. */
    method CalculatePropagatedRisk(supi: string) returns (p: PropagatedRisk)
      requires repository.Valid()
      ensures p == Propagate(repository.Contents(), relationships, supi)
    {
      hide Contributing, Total, Classify, Capped;
      var score := 0.0;
      var neighbours: seq<string> := [];
      ghost var repo := repository.Contents();
      StartOfScore(repo, supi);
      for i := 0 to |relationships|
        invariant repository.Valid() && repo == repository.Contents()
        invariant Scored(repo, relationships[..i], supi, score, neighbours)
      {
        var r := relationships[i];
        assert relationships[..i + 1] == relationships[..i] + [r];
        ScoreStep(repo, relationships[..i], r, supi, score, neighbours);
        if r.target == supi {
          var source := repository.GetRecord(r.source);
          if source.Some? && source.value.trust in {WATCHLIST, BLOCKED} {
            assert repo[r.source] == source.value.Value();
            score := score + r.weight * source.value.latestScore as real;
            neighbours := neighbours + [r.source];
          }
        }
      }
      assert relationships[..|relationships|] == relationships;
      ghost var from := Contributing(repo, relationships, supi);
      assert |neighbours| == |from|;
      if neighbours == [] {
        p := PropagatedRisk(supi, 0.0, PropagatedLevel.NONE, []);
      } else {
        p := PropagatedRisk(supi, Capped(score), Classify(Capped(score)), neighbours);
      }
      assert p == Propagate(repo, relationships, supi);
    }
  }

  ghost predicate Scored(repo: Repository, rels: seq<Relationship>, supi: string, score: real,
                         neighbours: seq<string>) {
    score == Total(repo, Contributing(repo, rels, supi)) && neighbours == Sources(Contributing(repo, rels, supi))
  }

  lemma StartOfScore(repo: Repository, supi: string)
    ensures Scored(repo, [], supi, 0.0, [])
  {
  }

  lemma ScoreStep(repo: Repository, rels: seq<Relationship>, r: Relationship, supi: string, score: real,
                  neighbours: seq<string>)
    requires Scored(repo, rels, supi, score, neighbours)
    ensures if Contributes(repo, r, supi)
            then Scored(repo, rels + [r], supi, score + r.weight * repo[r.source].latestScore as real,
                        neighbours + [r.source])
            else Scored(repo, rels + [r], supi, score, neighbours)
  {
    hide Contributing, Total, Sources, Contributes;
    var before := Contributing(repo, rels, supi);
    ContributingOne(repo, rels, r, supi);
    if Contributes(repo, r, supi) {
      SourceKnown(repo, r, supi);
      TotalOne(repo, before, r);
    } else {
      assert before + [] == before;
    }
  }

  lemma ContributingOne(repo: Repository, rels: seq<Relationship>, r: Relationship, supi: string)
    ensures Contributing(repo, rels + [r], supi) ==
            Contributing(repo, rels, supi) + (if Contributes(repo, r, supi) then [r] else [])
  {
    hide Contributes;
    assert (rels + [r])[..|rels|] == rels;
  }

  lemma TotalOne(repo: Repository, rels: seq<Relationship>, r: Relationship)
    requires r.source in repo
    ensures Total(repo, rels + [r]) == Total(repo, rels) + r.weight * repo[r.source].latestScore as real
    ensures Sources(rels + [r]) == Sources(rels) + [r.source]
  {
    assert (rels + [r])[..|rels|] == rels;
  }

  /** The docstring says the first match goes; every match does, and nothing else. */
  lemma {:induction false} WithoutMeaning(rels: seq<Relationship>, source: string, target: string,
                                          kind: RelationshipType, r: Relationship)
    ensures multiset(Without(rels, source, target, kind))[r] ==
            if r.source == source && r.target == target && r.kind == kind then 0 else multiset(rels)[r]
  {
    if rels != [] {
      var n := |rels| - 1;
      WithoutMeaning(rels[..n], source, target, kind, r);
      OneMoreOf(rels[..n], rels[n], r);
      OneMoreOf(Without(rels[..n], source, target, kind), rels[n], r);
      WithoutLast(rels, source, target, kind);
      hide Without;
      assert rels == rels[..n] + [rels[n]];
    }
  }

  lemma WithoutLast(rels: seq<Relationship>, source: string, target: string, kind: RelationshipType)
    requires rels != []
    ensures var before, r := Without(rels[..|rels| - 1], source, target, kind), rels[|rels| - 1];
            Without(rels, source, target, kind) ==
            if r.source == source && r.target == target && r.kind == kind then before else before + [r]
  {
  }

  lemma OneMoreOf(rels: seq<Relationship>, x: Relationship, r: Relationship)
    ensures multiset(rels + [x])[r] == multiset(rels)[r] + (if x == r then 1 else 0)
  {
  }

  /** What stays keeps its order. */
  lemma {:induction false} WithoutConcat(a: seq<Relationship>, b: seq<Relationship>, source: string, target: string,
                                         kind: RelationshipType)
    ensures Without(a + b, source, target, kind) == Without(a, source, target, kind) + Without(b, source, target, kind)
  {
    if b == [] {
      assert a + b == a;
    } else {
      var n := |b| - 1;
      assert (a + b)[..|a| + n] == a + b[..n];
      WithoutConcat(a, b[..n], source, target, kind);
    }
  }

  // ── The closed form ──────────────────────────────────────────────────────

  predicate LastHigh(signals: seq<Signal>, cfg: AssessmentConfig, supi: string) {
    var levels := LevelsOf(signals, cfg, supi);
    levels != [] && levels[|levels| - 1] == RiskLevel.HIGH
  }

  /** The weights of the relationships to supi from subscribers last assessed HIGH. */
  function WeightFrom(signals: seq<Signal>, cfg: AssessmentConfig, rels: seq<Relationship>, supi: string): real {
    if rels == [] then 0.0
    else
      var r := rels[|rels| - 1];
      WeightFrom(signals, cfg, rels[..|rels| - 1], supi)
      + (if r.target == supi && LastHigh(signals, cfg, r.source) then r.weight else 0.0)
  }

  ghost predicate NonNegative(rels: seq<Relationship>) {
    forall i :: 0 <= i < |rels| ==> rels[i].weight >= 0.0
  }

  lemma NeighbourMeaning(signals: seq<Signal>, cfg: AssessmentConfig, limits: Limits, r: Relationship, supi: string)
    requires limits.blockThreshold >= 1
    ensures var repo := Fed(signals, cfg, limits);
            && (Contributes(repo, r, supi) <==> r.target == supi && LastHigh(signals, cfg, r.source))
            && (Contributes(repo, r, supi) ==> repo[r.source].latestScore == 100)
  {
    hide Fed, Resolve, LevelsOf;
    FedReached(signals, cfg, limits, r.source);
    if r.source in Fed(signals, cfg, limits) {
      TrustMeaning(signals, cfg, limits, r.source);
    }
  }

  lemma {:induction false} TotalIsWeight(signals: seq<Signal>, cfg: AssessmentConfig, limits: Limits,
                                         rels: seq<Relationship>, supi: string)
    requires limits.blockThreshold >= 1
    ensures var repo := Fed(signals, cfg, limits);
            && Total(repo, Contributing(repo, rels, supi)) == 100.0 * WeightFrom(signals, cfg, rels, supi)
            && (Contributing(repo, rels, supi) == [] ==> WeightFrom(signals, cfg, rels, supi) == 0.0)
  {
    hide LastHigh, Fed, Contributes;
    if rels != [] {
      var n := |rels| - 1;
      var repo := Fed(signals, cfg, limits);
      TotalIsWeight(signals, cfg, limits, rels[..n], supi);
      NeighbourMeaning(signals, cfg, limits, rels[n], supi);
      var before := Contributing(repo, rels[..n], supi);
      assert (before + [rels[n]])[..|before|] == before && before + [] == before;
      if Contributes(repo, rels[n], supi) {
        SourceKnown(repo, rels[n], supi);
      }
    }
  }

  lemma SourceKnown(repo: Repository, r: Relationship, supi: string)
    requires Contributes(repo, r, supi)
    ensures r.source in repo
  {
  }

  /** The subscribers last assessed HIGH among those related to supi, in the order they were related. */
  function HighNeighbours(signals: seq<Signal>, cfg: AssessmentConfig, rels: seq<Relationship>, supi: string)
    : seq<string>
  {
    if rels == [] then []
    else
      var r := rels[|rels| - 1];
      HighNeighbours(signals, cfg, rels[..|rels| - 1], supi)
      + (if r.target == supi && LastHigh(signals, cfg, r.source) then [r.source] else [])
  }

  lemma {:induction false} SourcesAreHigh(signals: seq<Signal>, cfg: AssessmentConfig, limits: Limits,
                                          rels: seq<Relationship>, supi: string)
    requires limits.blockThreshold >= 1
    ensures Sources(Contributing(Fed(signals, cfg, limits), rels, supi)) == HighNeighbours(signals, cfg, rels, supi)
  {
    hide LastHigh, Fed, Contributes;
    if rels != [] {
      SourcesAreHigh(signals, cfg, limits, rels[..|rels| - 1], supi);
      NeighbourMeaning(signals, cfg, limits, rels[|rels| - 1], supi);
    }
  }

  /** A hundred times the weight, capped at 100, and the level that score stands for. */
  ghost predicate Weighed(p: PropagatedRisk, weight: real) {
    && p.score == (if weight < 1.0 then 100.0 * weight else 100.0)
    && (p.level == PropagatedLevel.NONE <==> p.score <= 0.0)
    && (p.level == PropagatedLevel.LOW <==> 0.0 < p.score <= 49.0)
    && (p.level == PropagatedLevel.MEDIUM <==> 49.0 < p.score <= 74.0)
    && (p.level == PropagatedLevel.HIGH <==> 74.0 < p.score)
  }

  /**
   * On a repository fed only by assessments: the score is 100 times the weights of the neighbours last
   * assessed HIGH, capped at 100, the level is read from that, and those neighbours are named.
   */
  lemma PropagationClosedForm(signals: seq<Signal>, cfg: AssessmentConfig, limits: Limits, rels: seq<Relationship>,
                              supi: string)
    requires limits.blockThreshold >= 1
    ensures var p := Propagate(Fed(signals, cfg, limits), rels, supi);
            && Weighed(p, WeightFrom(signals, cfg, rels, supi))
            && p.supi == supi && p.neighbours == HighNeighbours(signals, cfg, rels, supi)
  {
    hide Fed, WeightFrom, Contributing, HighNeighbours;
    TotalIsWeight(signals, cfg, limits, rels, supi);
    SourcesAreHigh(signals, cfg, limits, rels, supi);
  }

  lemma {:induction false} WeightSplit(signals: seq<Signal>, cfg: AssessmentConfig, a: seq<Relationship>,
                                       b: seq<Relationship>, supi: string)
    ensures WeightFrom(signals, cfg, a + b, supi) == WeightFrom(signals, cfg, a, supi)
            + WeightFrom(signals, cfg, b, supi)
  {
    hide LastHigh;
    if b == [] {
      assert a + b == a;
    } else {
      var n := |b| - 1;
      assert (a + b)[..|a| + n] == a + b[..n];
      WeightSplit(signals, cfg, a, b[..n], supi);
    }
  }

  lemma WeightWithout(signals: seq<Signal>, cfg: AssessmentConfig, b: seq<Relationship>, k: nat, supi: string)
    requires k < |b|
    ensures WeightFrom(signals, cfg, b, supi)
            == WeightFrom(signals, cfg, b[..k] + b[k + 1..], supi) + WeightFrom(signals, cfg, [b[k]], supi)
  {
    hide WeightFrom;
    assert b == b[..k] + ([b[k]] + b[k + 1..]);
    WeightSplit(signals, cfg, b[..k], [b[k]] + b[k + 1..], supi);
    WeightSplit(signals, cfg, [b[k]], b[k + 1..], supi);
    WeightSplit(signals, cfg, b[..k], b[k + 1..], supi);
  }

  lemma SameMultisetEmpty<T>(b: seq<T>)
    requires multiset(b) == multiset{}
    ensures b == []
  {
    assert |multiset(b)| == |b|;
  }

  /** Where the first element of one list stands in a list of the same elements, and what removing it leaves. */
  lemma SameMultisetFind<T>(a: seq<T>, b: seq<T>) returns (k: nat)
    requires a != [] && multiset(a) == multiset(b)
    ensures k < |b| && b[k] == a[0]
    ensures multiset(a[..0] + a[1..]) == multiset(b[..k] + b[k + 1..])
  {
    assert a[0] in multiset(b);
    k :| 0 <= k < |b| && b[k] == a[0];
    MultisetWithout(a, 0);
    MultisetWithout(b, k);
  }

  lemma MultisetWithout<T>(b: seq<T>, k: nat)
    requires k < |b|
    ensures multiset(b[..k] + b[k + 1..]) == multiset(b) - multiset{b[k]}
  {
    assert b == b[..k] + [b[k]] + b[k + 1..];
  }

  /** The order the relationships were added in does not matter. */
  lemma {:induction false} OrderDoesNotMatter(signals: seq<Signal>, cfg: AssessmentConfig, a: seq<Relationship>,
                                              b: seq<Relationship>, supi: string)
    requires multiset(a) == multiset(b)
    ensures WeightFrom(signals, cfg, a, supi) == WeightFrom(signals, cfg, b, supi)
    decreases |a|
  {
    hide WeightFrom;
    if a == [] {
      SameMultisetEmpty(b);
    } else {
      var k := SameMultisetFind(a, b);
      OrderDoesNotMatter(signals, cfg, a[..0] + a[1..], b[..k] + b[k + 1..], supi);
      WeightWithout(signals, cfg, a, 0, supi);
      WeightWithout(signals, cfg, b, k, supi);
    }
  }
}
