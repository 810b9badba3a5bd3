/** The fail-closed gate from a reduced READ frame to a decision. */
module DecisionGate {
  import opened Basics
  import opened ReadContext
  import opened Candidates
  import opened Reducer
  import opened ReducerLaws
  import opened ReducerInvariant

  // ---------------------------------------------------------------- unique index over identified records

  function Occurrences<T>(values: seq<(string, T)>, id: string): nat {
    if values == [] then 0
    else Occurrences(values[..|values| - 1], id) + (if values[|values| - 1].0 == id then 1 else 0)
  }

  lemma {:induction false} OccursMeans<T>(values: seq<(string, T)>, id: string)
    ensures Occurrences(values, id) == 0 <==> forall i :: 0 <= i < |values| ==> values[i].0 != id
  {
    if values != [] {
      var init := values[..|values| - 1];
      OccursMeans(init, id);
      assert forall i :: 0 <= i < |init| ==> init[i] == values[i];
    }
  }

  /** Index of the records whose non-empty identity occurs exactly once. */
  method UniqueIndex<T>(values: seq<(string, T)>) returns (index: map<string, T>)
    ensures forall id :: id in index <==> id != "" && Occurrences(values, id) == 1
    ensures forall id :: id in index ==> (id, index[id]) in values
  {
    index := map[];
    var duplicates: set<string> := {};
    for i := 0 to |values|
      invariant forall id :: id in index <==> id != "" && Occurrences(values[..i], id) == 1
      invariant forall id :: id in duplicates <==> id != "" && Occurrences(values[..i], id) > 1
      invariant forall id :: id in index ==> (id, index[id]) in values
    {
      assert values[..i + 1][..i] == values[..i];
      var (id, value) := values[i];
      if id != "" {
        if id in index || id in duplicates {
          index := index - {id};
          duplicates := duplicates + {id};
        } else {
          index := index[id := value];
          assert values[i] == (id, value);
        }
      }
    }
    assert values[..|values|] == values;
  }

  // ---------------------------------------------------------------- cards and the server's read authority

  datatype Card = Card(
    capabilityId: string,
    registrySnapshotId: string,
    inputs: seq<InputDescriptor>,
    hidden: bool,
    sideEffect: string,
    requiresApproval: bool,
    dataClassification: string)
  {
    predicate ForExecution() { !hidden && sideEffect == "none" && dataClassification == "internal" }
  }

  datatype RawBinding = RawBinding(bindingType: string, sideEffect: string)

  datatype RawCapability = RawCapability(status: string, executorType: string, executorBindingId: string)

  datatype Authority = Authority(cards: seq<Card>, capabilityIds: set<string>, snapshotId: string)

  function FilterVisible(cards: seq<Card>, forExecution: bool): seq<(string, Card)> {
    if cards == [] then []
    else
      (if (forExecution && cards[0].ForExecution()) || (!forExecution && !cards[0].hidden)
       then [(cards[0].capabilityId, cards[0])] else [])
      + FilterVisible(cards[1..], forExecution)
  }

  /** A capability may be executed for a READ turn. */
  ghost predicate Eligible(id: string, cards: seq<Card>, capabilities: seq<(string, RawCapability)>,
                           bindings: seq<(string, RawBinding)>, snapshotId: string)
  {
    var executable, visible := FilterVisible(cards, true), FilterVisible(cards, false);
    exists card, capability, binding {:trigger (id, card) in executable, (id, capability) in capabilities, (capability.executorBindingId, binding) in bindings} ::
      && id != "" && (id, card) in executable && Occurrences(executable, id) == 1
      && (id, card) in visible && Occurrences(visible, id) == 1
      && card.registrySnapshotId == snapshotId && !card.requiresApproval
      && (id, capability) in capabilities && Occurrences(capabilities, id) == 1
      && capability.status == "active" && capability.executorBindingId != ""
      && (capability.executorBindingId, binding) in bindings && Occurrences(bindings, capability.executorBindingId) == 1
      && binding.bindingType == capability.executorType && binding.sideEffect == "none"
  }

  lemma {:induction false} OnlyOccurrence<T>(values: seq<(string, T)>, id: string, a: T, b: T)
    requires Occurrences(values, id) == 1 && (id, a) in values && (id, b) in values
    ensures a == b
  {
    var init, last := values[..|values| - 1], values[|values| - 1];
    assert values == init + [last];
    OccursMeans(init, id);
    if last.0 == id {
      assert (id, a) !in init && (id, b) !in init;
    } else {
      OnlyOccurrence(init, id, a, b);
    }
  }

  /** The closed set of executable READ capabilities, collected card by card. */
  method ProjectEligible(cards: seq<Card>, capabilities: seq<(string, RawCapability)>,
                         bindings: seq<(string, RawBinding)>, snapshotId: string) returns (ids: set<string>)
    ensures forall id :: id in ids <==> Eligible(id, cards, capabilities, bindings, snapshotId)
  {
    var capabilityIndex := UniqueIndex(capabilities);
    var bindingIndex := UniqueIndex(bindings);
    var executable := UniqueIndex(FilterVisible(cards, true));
    var visible := UniqueIndex(FilterVisible(cards, false));
    ids := {};
    var todo := executable.Keys;
    while todo != {}
      invariant todo <= executable.Keys
      invariant forall id :: id in ids <==>
                  id in executable.Keys - todo && Admitted(id, executable, visible, capabilityIndex, bindingIndex, snapshotId)
      decreases |todo|
    {
      var id :| id in todo;
      todo := todo - {id};
      if Admitted(id, executable, visible, capabilityIndex, bindingIndex, snapshotId) { ids := ids + {id}; }
    }
    forall id ensures id in ids <==> Eligible(id, cards, capabilities, bindings, snapshotId) {
      if Eligible(id, cards, capabilities, bindings, snapshotId) {
        var card, capability, binding :|
          && id != "" && (id, card) in FilterVisible(cards, true) && Occurrences(FilterVisible(cards, true), id) == 1
          && (id, card) in FilterVisible(cards, false) && Occurrences(FilterVisible(cards, false), id) == 1
          && card.registrySnapshotId == snapshotId && !card.requiresApproval
          && (id, capability) in capabilities && Occurrences(capabilities, id) == 1
          && capability.status == "active" && capability.executorBindingId != ""
          && (capability.executorBindingId, binding) in bindings && Occurrences(bindings, capability.executorBindingId) == 1
          && binding.bindingType == capability.executorType && binding.sideEffect == "none";
        OnlyOccurrence(FilterVisible(cards, true), id, card, executable[id]);
        OnlyOccurrence(FilterVisible(cards, false), id, card, visible[id]);
        OnlyOccurrence(capabilities, id, capability, capabilityIndex[id]);
        OnlyOccurrence(bindings, capability.executorBindingId, binding, bindingIndex[capability.executorBindingId]);
      }
    }
  }

  /** The body of the collection loop: every `continue` of the source is one conjunct. */
  predicate Admitted(id: string, executable: map<string, Card>, visible: map<string, Card>,
                     capabilities: map<string, RawCapability>, bindings: map<string, RawBinding>, snapshotId: string)
  {
    && id in executable && Lookup(visible, id) == Some(executable[id])
    && executable[id].registrySnapshotId == snapshotId && !executable[id].requiresApproval
    && id in capabilities && capabilities[id].status == "active"
    && capabilities[id].executorBindingId != "" && capabilities[id].executorBindingId in bindings
    && bindings[capabilities[id].executorBindingId].bindingType == capabilities[id].executorType
    && bindings[capabilities[id].executorBindingId].sideEffect == "none"
  }

  // ---------------------------------------------------------------- eligibility, told from the records

  ghost predicate OnlyAt<T>(values: seq<(string, T)>, id: string, j: nat) {
    j < |values| && values[j].0 == id && forall k :: 0 <= k < |values| && k != j ==> values[k].0 != id
  }

  /** The only record with this identity. */
  ghost predicate Unique<T>(values: seq<(string, T)>, id: string, value: T) {
    exists j: nat :: OnlyAt(values, id, j) && values[j].1 == value
  }

  lemma {:induction false} UniqueOccurs<T>(values: seq<(string, T)>, id: string, value: T)
    ensures Unique(values, id, value) <==> Occurrences(values, id) == 1 && (id, value) in values
  {
    if values != [] {
      var n := |values| - 1;
      var init, last := values[..n], values[n];
      UniqueOccurs(init, id, value);
      OccursMeans(init, id);
      assert values == init + [last];
      if Unique(values, id, value) {
        var j: nat :| OnlyAt(values, id, j) && values[j].1 == value;
        assert forall k :: 0 <= k < n ==> init[k] == values[k];
        if j < n { assert OnlyAt(init, id, j); } else { assert values[n] == (id, value); }
      }
      if Occurrences(values, id) == 1 && (id, value) in values {
        if last.0 == id {
          assert (id, value) !in init;
          assert OnlyAt(values, id, n);
        } else {
          var j: nat :| OnlyAt(init, id, j) && init[j].1 == value;
          assert OnlyAt(values, id, j);
        }
      }
    }
  }

  /** The only card of this capability that is not hidden. */
  ghost predicate OnlyVisible(cards: seq<Card>, id: string, card: Card) {
    exists j :: 0 <= j < |cards| && cards[j] == card && card.capabilityId == id && !card.hidden
                && forall k :: 0 <= k < |cards| && k != j && cards[k].capabilityId == id ==> cards[k].hidden
  }

  lemma {:induction false} OccurrencesAppend<T>(a: seq<(string, T)>, b: seq<(string, T)>, id: string)
    ensures Occurrences(a + b, id) == Occurrences(a, id) + Occurrences(b, id)
    decreases |b|
  {
    if b == [] {
      assert a + b == a;
    } else {
      assert (a + b)[..|a + b| - 1] == a + b[..|b| - 1];
      OccurrencesAppend(a, b[..|b| - 1], id);
    }
  }

  lemma {:induction false} NoneVisible(cards: seq<Card>, id: string, forExecution: bool)
    ensures Occurrences(FilterVisible(cards, forExecution), id) == 0 <==>
            forall k :: 0 <= k < |cards| && cards[k].capabilityId == id ==>
              if forExecution then !cards[k].ForExecution() else cards[k].hidden
    ensures forall c :: (id, c) in FilterVisible(cards, forExecution) ==>
              c.capabilityId == id && c in cards && if forExecution then c.ForExecution() else !c.hidden
  {
    if cards != [] {
      var head := if (forExecution && cards[0].ForExecution()) || (!forExecution && !cards[0].hidden) then [(cards[0].capabilityId, cards[0])] else [];
      NoneVisible(cards[1..], id, forExecution);
      OccurrencesAppend(head, FilterVisible(cards[1..], forExecution), id);
      OccursMeans(head, id);
      assert forall k :: 0 < k < |cards| ==> cards[k] == cards[1..][k - 1];
    }
  }

  lemma {:induction false} OnlyVisibleOccurs(cards: seq<Card>, id: string, card: Card)
    ensures OnlyVisible(cards, id, card) <==>
            Occurrences(FilterVisible(cards, false), id) == 1 && (id, card) in FilterVisible(cards, false)
  {
    if cards != [] {
      var first, rest := cards[0], cards[1..];
      var head := if !first.hidden then [(first.capabilityId, first)] else [];
      OnlyVisibleOccurs(rest, id, card);
      NoneVisible(rest, id, false);
      OccurrencesAppend(head, FilterVisible(rest, false), id);
      HeadOccurs(head, id);
      OccursMeans(FilterVisible(rest, false), id);
      FirstVisible(cards, id, card);
    }
  }

  lemma HeadOccurs<T>(head: seq<(string, T)>, id: string)
    requires |head| <= 1
    ensures Occurrences(head, id) == if |head| == 1 && head[0].0 == id then 1 else 0
  {
    if |head| == 1 { assert head[..0] == []; }
  }

  lemma FirstVisible(cards: seq<Card>, id: string, card: Card)
    requires cards != []
    ensures OnlyVisible(cards, id, card) <==>
            if cards[0].capabilityId == id && !cards[0].hidden then
              card == cards[0] && forall k :: 0 <= k < |cards[1..]| && cards[1..][k].capabilityId == id ==> cards[1..][k].hidden
            else OnlyVisible(cards[1..], id, card)
  {
    var rest := cards[1..];
    assert forall k :: 0 <= k < |rest| ==> rest[k] == cards[k + 1];
    assert forall k :: 0 < k < |cards| ==> cards[k] == rest[k - 1];
    if OnlyVisible(cards, id, card) {
      var j :| 0 <= j < |cards| && cards[j] == card && card.capabilityId == id && !card.hidden
               && forall k :: 0 <= k < |cards| && k != j && cards[k].capabilityId == id ==> cards[k].hidden;
      if j > 0 { assert rest[j - 1] == card; }
    }
    if OnlyVisible(rest, id, card) && !(cards[0].capabilityId == id && !cards[0].hidden) {
      var j :| 0 <= j < |rest| && rest[j] == card && card.capabilityId == id && !card.hidden
               && forall k :: 0 <= k < |rest| && k != j && rest[k].capabilityId == id ==> rest[k].hidden;
      assert cards[j + 1] == card;
    }
    if cards[0].capabilityId == id && !cards[0].hidden && card == cards[0]
       && forall k :: 0 <= k < |rest| && rest[k].capabilityId == id ==> rest[k].hidden
    {
      assert cards[0] == card;
    }
  }

  /** A capability is eligible exactly when it has one card that is not hidden, of this snapshot, without side
      effect or approval and internal, one active record, and one executor of the record's type without side effect. */
  lemma EligibleExactly(id: string, cards: seq<Card>, capabilities: seq<(string, RawCapability)>,
                        bindings: seq<(string, RawBinding)>, snapshotId: string)
    ensures Eligible(id, cards, capabilities, bindings, snapshotId) <==>
            && id != ""
            && (exists card :: OnlyVisible(cards, id, card) && card.sideEffect == "none" && card.dataClassification == "internal"
                               && card.registrySnapshotId == snapshotId && !card.requiresApproval)
            && exists capability, binding ::
                 && Unique(capabilities, id, capability) && Unique(bindings, capability.executorBindingId, binding)
                 && capability.status == "active" && capability.executorBindingId != ""
                 && binding.bindingType == capability.executorType && binding.sideEffect == "none"
  {
    forall card ensures OnlyVisible(cards, id, card) <==> Occurrences(FilterVisible(cards, false), id) == 1 && (id, card) in FilterVisible(cards, false) {
      OnlyVisibleOccurs(cards, id, card);
    }
    forall capability ensures Unique(capabilities, id, capability) <==> Occurrences(capabilities, id) == 1 && (id, capability) in capabilities {
      UniqueOccurs(capabilities, id, capability);
    }
    forall name, binding ensures Unique(bindings, name, binding) <==> Occurrences(bindings, name) == 1 && (name, binding) in bindings {
      UniqueOccurs(bindings, name, binding);
    }
    forall card | OnlyVisible(cards, id, card)
      ensures card.sideEffect == "none" && card.dataClassification == "internal" ==>
                Occurrences(FilterVisible(cards, true), id) == 1 && (id, card) in FilterVisible(cards, true)
      ensures (id, card) in FilterVisible(cards, true) ==> card.sideEffect == "none" && card.dataClassification == "internal"
    {
      OnlyExecutable(cards, id, card);
    }
    hide OnlyVisible, Unique, FilterVisible, Occurrences;
  }

  lemma {:induction false} OnlyExecutable(cards: seq<Card>, id: string, card: Card)
    requires OnlyVisible(cards, id, card)
    ensures card.sideEffect == "none" && card.dataClassification == "internal" ==>
              Occurrences(FilterVisible(cards, true), id) == 1 && (id, card) in FilterVisible(cards, true)
    ensures (id, card) in FilterVisible(cards, true) ==> card.sideEffect == "none" && card.dataClassification == "internal"
  {
    NoneVisible(cards, id, true);
    var first, rest := cards[0], cards[1..];
    FirstVisible(cards, id, card);
    var head := if first.ForExecution() then [(first.capabilityId, first)] else [];
    OccurrencesAppend(head, FilterVisible(rest, true), id);
    HeadOccurs(head, id);
    if first.capabilityId == id && !first.hidden {
      NoneVisible(rest, id, true);
    } else {
      OnlyExecutable(rest, id, card);
    }
  }
}
