/**
  The Python back end's table of SMS providers: which providers are
  active, in which order they are tried, and switching one on or off.
 */
module SmsProvider {
  import opened Wrappers
  import opened Collections

  datatype Provider = Provider(
    id: nat,
    name: string,
    apiEndpoint: string,
    isActive: bool,
    priority: int,
    rateLimitPerMinute: int)

  /** The sort key of `order_by(priority.asc())`. */
  function PriorityKey(p: Provider): (k: int)
    ensures k == p.priority
  {
    p.priority
  }

  /** `get_active_providers`: exactly the active rows, lowest priority number first. */
  function ActiveProviders(table: seq<Provider>): (r: seq<Provider>)
    ensures SortedBy(r, PriorityKey)
    ensures multiset(r) == multiset(Filter(table, (p: Provider) => p.isActive))
    ensures forall i :: 0 <= i < |r| ==> r[i] in table && r[i].isActive
    ensures forall i :: 0 <= i < |table| && table[i].isActive ==> table[i] in r
  {
    SortedFilter(table, (p: Provider) => p.isActive, PriorityKey)
  }

  /** `get_primary_provider`: the head of the active list, `None` when no provider is active. */
  function PrimaryProvider(table: seq<Provider>): (r: Option<Provider>)
    ensures r.None? <==> forall i :: 0 <= i < |table| ==> !table[i].isActive
    ensures r.Some? ==> r.value in table && r.value.isActive
  {
    var active := ActiveProviders(table);
    if active == [] then None else Some(active[0])
  }

  /** The primary provider has the smallest priority number of all active providers. */
  lemma PrimaryHasLeastPriority(table: seq<Provider>, i: nat)
    requires i < |table| && table[i].isActive
    ensures PrimaryProvider(table).Some?
    ensures PrimaryProvider(table).value.priority <= table[i].priority
  {
    var active := ActiveProviders(table);
    assert table[i] in active;
    var k :| 0 <= k < |active| && active[k] == table[i];
    if k > 0 {
      assert PriorityKey(active[0]) <= PriorityKey(active[k]);
    }
  }

  /** `deactivate`: switches the provider off and changes nothing else. */
  function Deactivate(p: Provider): (r: Provider)
    ensures !r.isActive
    ensures r.(isActive := p.isActive) == p
  {
    p.(isActive := false)
  }

  /** `activate`: switches the provider on and changes nothing else. */
  function Activate(p: Provider): (r: Provider)
    ensures r.isActive
    ensures r.(isActive := p.isActive) == p
  {
    p.(isActive := true)
  }

  /** Switching an active provider off and on again restores it. */
  lemma ActivateUndoesDeactivate(p: Provider)
    requires p.isActive
    ensures Activate(Deactivate(p)) == p
  {
  }

  /** `deactivate` on the row with id `id` of the table. */
  function DeactivateRow(table: seq<Provider>, id: nat): (r: seq<Provider>)
    ensures |r| == |table|
    ensures forall i :: 0 <= i < |table| ==> r[i] == (if table[i].id == id then Deactivate(table[i]) else table[i])
  {
    Map(table, (p: Provider) => if p.id == id then Deactivate(p) else p)
  }

  /** A deactivated provider is never in the active list, and the other active providers stay in it. */
  lemma DeactivatedLeavesActiveList(table: seq<Provider>, id: nat)
    ensures forall q :: q in ActiveProviders(DeactivateRow(table, id)) ==> q.id != id
    ensures forall q :: q in ActiveProviders(table) && q.id != id ==> q in ActiveProviders(DeactivateRow(table, id))
  {
    var after := DeactivateRow(table, id);
    var active := ActiveProviders(after);
    forall q | q in active ensures q.id != id {
      var k :| 0 <= k < |active| && active[k] == q;
      assert q in after && q.isActive;
    }
    forall q | q in ActiveProviders(table) && q.id != id ensures q in active {
      var before := ActiveProviders(table);
      var k :| 0 <= k < |before| && before[k] == q;
      var j :| 0 <= j < |table| && table[j] == q;
      assert after[j] == q;
    }
  }
}
