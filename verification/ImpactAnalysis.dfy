/** Propagation of a change to the capabilities and fact types it can reach. */
module ImpactAnalysis {
  import opened Basics

  datatype Graph = Graph(
    capToFacts: map<string, set<string>>,
    factToCaps: map<string, set<string>>,
    capInputTypes: map<string, set<string>>,
    ruleToCap: map<string, string>)
  {
    function FactsOf(cap: string): set<string> { if cap in capToFacts then capToFacts[cap] else {} }
    function CapsOf(fact: string): set<string> { if fact in factToCaps then factToCaps[fact] else {} }
  }

  datatype Approval = Approval(approvalId: string, capabilityId: string)

  datatype Report = Report(capabilities: seq<string>, factTypes: seq<string>, approvals: seq<string>)

  /** The part of a CURIE after its first colon. */
  function Local(curie: string): string {
    if ':' in curie then AfterColon(curie) else curie
  }

  function AfterColon(s: string): string {
    if s == "" then "" else if s[0] == ':' then s[1..] else AfterColon(s[1..])
  }

  // ---------------------------------------------------------------- reachability

  /** Where a change enters: the capability of the rule, and every capability taking the semantic type. */
  function SeedsOf(g: Graph, ruleId: string, semanticType: string): set<string> {
    var ruled := if ruleId == "" then None else Lookup(g.ruleToCap, Local(ruleId));
    (if ruled.Some? && ruled.value != "" then {ruled.value} else {})
    + (if semanticType == "" then {} else set cap | cap in g.capInputTypes && Local(semanticType) in g.capInputTypes[cap])
  }

  /** What stands behind the first colon, or the whole text without one. */
  lemma {:induction false} LocalIs(curie: string)
    ensures ':' in curie ==> exists p :: 0 <= p < |curie| && curie[p] == ':' && ':' !in curie[..p] && Local(curie) == curie[p + 1..]
    ensures ':' !in curie ==> Local(curie) == curie
  {
    if ':' in curie && curie[0] != ':' {
      LocalIs(curie[1..]);
      var p :| 0 <= p < |curie[1..]| && curie[1..][p] == ':' && ':' !in curie[1..][..p] && Local(curie[1..]) == curie[1..][p + 1..];
      assert curie[..p + 1] == [curie[0]] + curie[1..][..p];
      assert curie[p + 1] == ':';
    } else if ':' in curie {
      assert curie[0] == ':' && curie[..0] == "";
    }
  }

  /** One hop: a capability produces a fact that another capability consumes. */
  ghost predicate Feeds(g: Graph, a: string, b: string) {
    exists fact :: a in g.capToFacts && fact in g.capToFacts[a] && fact in g.factToCaps && b in g.factToCaps[fact]
  }

  /** A chain of capabilities in which each one feeds the next. */
  ghost predicate Chain(g: Graph, path: seq<string>) {
    path != [] && forall i :: 0 <= i < |path| - 1 ==> Feeds(g, path[i], path[i + 1])
  }

  ghost predicate Reaches(g: Graph, seeds: set<string>, cap: string) {
    exists path :: Chain(g, path) && path[0] in seeds && path[|path| - 1] == cap
  }

  lemma SeedsReach(g: Graph, seeds: set<string>, cap: string)
    requires cap in seeds
    ensures Reaches(g, seeds, cap)
  {
    assert Chain(g, [cap]);
  }

  lemma ReachesOn(g: Graph, seeds: set<string>, a: string, b: string)
    requires Reaches(g, seeds, a) && Feeds(g, a, b)
    ensures Reaches(g, seeds, b)
  {
    var path :| Chain(g, path) && path[0] in seeds && path[|path| - 1] == a;
    assert Chain(g, path + [b]);
  }

  /** A set that holds the seeds and everything its members feed holds everything reachable. */
  lemma {:induction false} ClosedHoldsChain(g: Graph, closed: set<string>, path: seq<string>)
    requires Chain(g, path) && path[0] in closed
    requires forall a, b :: a in closed && Feeds(g, a, b) ==> b in closed
    ensures path[|path| - 1] in closed
  {
    if |path| > 1 {
      assert Feeds(g, path[0], path[1]);
      assert Chain(g, path[1..]) by {
        forall i | 0 <= i < |path[1..]| - 1 ensures Feeds(g, path[1..][i], path[1..][i + 1]) {
          assert Feeds(g, path[i + 1], path[i + 2]);
        }
      }
      ClosedHoldsChain(g, closed, path[1..]);
    }
  }

  lemma ClosedHoldsReachable(g: Graph, closed: set<string>, seeds: set<string>)
    requires seeds <= closed && forall a, b :: a in closed && Feeds(g, a, b) ==> b in closed
    ensures forall cap :: Reaches(g, seeds, cap) ==> cap in closed
  {
    forall cap | Reaches(g, seeds, cap) ensures cap in closed {
      var path :| Chain(g, path) && path[0] in seeds && path[|path| - 1] == cap;
      ClosedHoldsChain(g, closed, path);
    }
  }

  // ---------------------------------------------------------------- the worklist

  /** Every capability the worklist can ever hold. */
  function Universe(g: Graph, seeds: set<string>): set<string> {
    seeds + set fact, cap | fact in g.factToCaps && cap in g.factToCaps[fact] :: cap
  }

  /** A fact is settled when all its consumers are visited or waiting. */
  ghost predicate Settled(g: Graph, fact: string, visited: set<string>, frontier: set<string>) {
    g.CapsOf(fact) <= visited + frontier
  }

  method Seeds(g: Graph, ruleId: string, semanticType: string) returns (seeds: set<string>)
    ensures seeds == SeedsOf(g, ruleId, semanticType)
    ensures forall cap :: cap in seeds <==>
              || (ruleId != "" && cap != "" && Local(ruleId) in g.ruleToCap && g.ruleToCap[Local(ruleId)] == cap)
              || (semanticType != "" && cap in g.capInputTypes && Local(semanticType) in g.capInputTypes[cap])
  {
    seeds := {};
    if ruleId != "" {
      var cap := Lookup(g.ruleToCap, Local(ruleId));
      if cap.Some? && cap.value != "" { seeds := seeds + {cap.value}; }
    }
    if semanticType != "" {
      ghost var byRule := seeds;
      var todo := g.capInputTypes.Keys;
      while todo != {}
        invariant todo <= g.capInputTypes.Keys
        invariant seeds == byRule + set cap | cap in g.capInputTypes.Keys - todo && Local(semanticType) in g.capInputTypes[cap]
      {
        var cap :| cap in todo;
        todo := todo - {cap};
        if Local(semanticType) in g.capInputTypes[cap] { seeds := seeds + {cap}; }
      }
    }
  }

  function FactsOfAll(g: Graph, caps: set<string>): set<string> {
    set cap, fact | cap in caps && fact in g.FactsOf(cap) :: fact
  }

  lemma FactsOfOneMore(g: Graph, caps: set<string>, cap: string)
    ensures FactsOfAll(g, caps + {cap}) == FactsOfAll(g, caps) + g.FactsOf(cap)
  {}

  /** When nothing waits any more, what was visited is closed under feeding. */
  lemma SettledIsClosed(g: Graph, caps: set<string>, facts: set<string>)
    requires facts == FactsOfAll(g, caps) && forall fact :: fact in facts ==> Settled(g, fact, caps, {})
    ensures forall a, b :: a in caps && Feeds(g, a, b) ==> b in caps
  {
    forall a, b | a in caps && Feeds(g, a, b) ensures b in caps {
      var fact :| fact in g.FactsOf(a) && b in g.CapsOf(fact);
      assert fact in facts && Settled(g, fact, caps, {});
    }
  }

  /** Whatever order the worklist is popped in, it visits exactly the reachable capabilities and collects
      exactly their facts, although it skips facts it has seen before. */
  method Close(g: Graph, seeds: set<string>) returns (caps: set<string>, facts: set<string>)
    ensures forall cap :: cap in caps <==> Reaches(g, seeds, cap)
    ensures forall fact :: fact in facts <==> exists cap :: Reaches(g, seeds, cap) && cap in g.capToFacts && fact in g.capToFacts[cap]
  {
    hide Reaches, Settled, Universe, Feeds, FactsOfAll;
    FactsOfNone(g);
    caps, facts := {}, {};
    var frontier := seeds;
    ghost var universe := Universe(g, seeds);
    SeedsInUniverse(g, seeds);
    forall cap | cap in seeds ensures Reaches(g, seeds, cap) { SeedsReach(g, seeds, cap); }
    while frontier != {}
      invariant caps <= universe && frontier <= universe && seeds <= caps + frontier
      invariant forall cap :: cap in caps + frontier ==> Reaches(g, seeds, cap)
      invariant facts == FactsOfAll(g, caps)
      invariant forall fact :: fact in facts ==> Settled(g, fact, caps, frontier)
      decreases |universe - caps|, |frontier|
    {
      var cap :| cap in frontier;
      ghost var waiting := frontier;
      frontier := frontier - {cap};
      if cap in caps {
        forall fact | fact in facts ensures Settled(g, fact, caps, frontier) { SettledWithoutVisited(g, fact, caps, waiting, cap); }
      } else {
        ghost var unvisited := universe - caps;
        forall fact | fact in facts ensures Settled(g, fact, caps + {cap}, frontier) { SettledOnceVisited(g, fact, caps, waiting, cap); }
        FactsOfOneMore(g, caps, cap);
        caps := caps + {cap};
        assert universe - caps == unvisited - {cap};
        facts, frontier := Expand(g, seeds, cap, caps, facts, frontier);
      }
    }
    SettledIsClosed(g, caps, facts);
    ClosedHoldsReachable(g, caps, seeds);
    FactsOfAllExactly(g, caps);
  }

  lemma FactsOfNone(g: Graph)
    ensures FactsOfAll(g, {}) == {}
  {}

  lemma FactsOfAllExactly(g: Graph, caps: set<string>)
    ensures forall fact :: fact in FactsOfAll(g, caps) <==> exists cap :: cap in caps && cap in g.capToFacts && fact in g.capToFacts[cap]
  {
    forall cap, fact ensures fact in g.FactsOf(cap) <==> cap in g.capToFacts && fact in g.capToFacts[cap] {}
    forall fact ensures fact in FactsOfAll(g, caps) <==> exists cap :: cap in caps && cap in g.capToFacts && fact in g.capToFacts[cap] {
      if fact in FactsOfAll(g, caps) { var cap :| cap in caps && fact in g.FactsOf(cap); }
    }
  }

  lemma SeedsInUniverse(g: Graph, seeds: set<string>)
    ensures seeds <= Universe(g, seeds)
  {}

  lemma SettledWithoutVisited(g: Graph, fact: string, caps: set<string>, waiting: set<string>, cap: string)
    requires Settled(g, fact, caps, waiting) && cap in caps
    ensures Settled(g, fact, caps, waiting - {cap})
  {}

  lemma SettledOnceVisited(g: Graph, fact: string, caps: set<string>, waiting: set<string>, cap: string)
    requires Settled(g, fact, caps, waiting)
    ensures Settled(g, fact, caps + {cap}, waiting - {cap})
  {}

  /** The inner loops: the facts of one newly visited capability, skipping those seen before. */
  method Expand(g: Graph, ghost seeds: set<string>, cap: string, caps: set<string>, seen: set<string>, waiting: set<string>)
    returns (facts: set<string>, frontier: set<string>)
    requires Reaches(g, seeds, cap) && waiting <= Universe(g, seeds)
    requires forall c :: c in waiting ==> Reaches(g, seeds, c)
    requires forall fact :: fact in seen ==> Settled(g, fact, caps, waiting)
    ensures facts == seen + g.FactsOf(cap)
    ensures waiting <= frontier <= Universe(g, seeds)
    ensures forall c :: c in frontier ==> Reaches(g, seeds, c)
    ensures forall fact :: fact in facts ==> Settled(g, fact, caps, frontier)
  {
    facts, frontier := seen, waiting;
    var todo := g.FactsOf(cap);
    while todo != {}
      invariant todo <= g.FactsOf(cap) && facts == seen + (g.FactsOf(cap) - todo)
      invariant waiting <= frontier <= Universe(g, seeds)
      invariant forall c :: c in frontier ==> Reaches(g, seeds, c)
      invariant forall fact :: fact in facts ==> Settled(g, fact, caps, frontier)
    {
      var fact :| fact in todo;
      todo := todo - {fact};
      if fact !in facts {
        ghost var before := facts;
        facts := facts + {fact};
        frontier := Push(g, seeds, cap, fact, caps, before, frontier);
      }
    }
  }

  method Push(g: Graph, ghost seeds: set<string>, ghost cap: string, fact: string, caps: set<string>,
              ghost seen: set<string>, waiting: set<string>)
    returns (frontier: set<string>)
    requires Reaches(g, seeds, cap) && fact in g.FactsOf(cap) && waiting <= Universe(g, seeds)
    requires forall c :: c in waiting ==> Reaches(g, seeds, c)
    requires forall f :: f in seen ==> Settled(g, f, caps, waiting)
    ensures frontier == waiting + (g.CapsOf(fact) - caps)
    ensures frontier <= Universe(g, seeds)
    ensures forall c :: c in frontier ==> Reaches(g, seeds, c)
    ensures forall f :: f in seen + {fact} ==> Settled(g, f, caps, frontier)
  {
    frontier := waiting;
    var todo := g.CapsOf(fact);
    while todo != {}
      invariant todo <= g.CapsOf(fact) && frontier == waiting + ((g.CapsOf(fact) - todo) - caps)
    {
      var downstream :| downstream in todo;
      todo := todo - {downstream};
      if downstream !in caps { frontier := frontier + {downstream}; }
    }
    forall c | c in g.CapsOf(fact) - caps ensures Reaches(g, seeds, c) && c in Universe(g, seeds) {
      assert Feeds(g, cap, c);
      ReachesOn(g, seeds, cap, c);
    }
  }

  // ---------------------------------------------------------------- the report

  /** The report names, in sorted order and once each, exactly the reachable capabilities and their facts,
      and the active approvals of these capabilities. */
  method Analyze(g: Graph, ruleId: string, semanticType: string, active: seq<Approval>) returns (r: Report)
    ensures Ascending(r.capabilities) && Ascending(r.factTypes)
    ensures forall cap :: cap in r.capabilities <==> Reaches(g, SeedsOf(g, ruleId, semanticType), cap)
    ensures forall fact :: fact in r.factTypes <==>
              exists cap :: Reaches(g, SeedsOf(g, ruleId, semanticType), cap) && cap in g.capToFacts && fact in g.capToFacts[cap]
    ensures forall id :: id in r.approvals <==> exists k :: 0 <= k < |active| && active[k].approvalId == id && active[k].capabilityId in r.capabilities
    ensures r.approvals == AffectedApprovals(active, set cap | cap in r.capabilities)
  {
    hide Reaches, SeedsOf, Ascending;
    var seeds := Seeds(g, ruleId, semanticType);
    var caps, facts := Close(g, seeds);
    var names := Sorted(caps);
    var types := Sorted(facts);
    var approvals: seq<string> := [];
    for i := 0 to |active|
      invariant approvals == AffectedApprovals(active[..i], caps)
    {
      assert active[..i + 1][..i] == active[..i];
      if active[i].capabilityId in caps { approvals := approvals + [active[i].approvalId]; }
    }
    assert active[..|active|] == active;
    assert caps == set cap | cap in names;
    forall id ensures id in approvals <==> exists k :: 0 <= k < |active| && active[k].approvalId == id && active[k].capabilityId in caps {
      AffectedExactly(active, caps, id);
    }
    r := Report(names, types, approvals);
  }

  /** The active approvals of affected capabilities, in the order they were supplied. */
  function AffectedApprovals(active: seq<Approval>, caps: set<string>): seq<string> {
    if active == [] then []
    else
      var last := active[|active| - 1];
      AffectedApprovals(active[..|active| - 1], caps) + (if last.capabilityId in caps then [last.approvalId] else [])
  }

  lemma {:induction false} AffectedExactly(active: seq<Approval>, caps: set<string>, id: string)
    ensures id in AffectedApprovals(active, caps) <==> exists k :: 0 <= k < |active| && active[k].approvalId == id && active[k].capabilityId in caps
  {
    if active != [] {
      var n := |active| - 1;
      AffectedExactly(active[..n], caps, id);
      assert forall k :: 0 <= k < n ==> active[..n][k] == active[k];
    }
  }
}
