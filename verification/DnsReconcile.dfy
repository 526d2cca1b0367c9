// Reconciling the managed A records of one owner with the wanted ones, one API
// call at a time.
module DnsReconcile {
  import opened Options

  type RecordId = nat

  type Records<R> = map<RecordId, R>

  // How one owner looks at records: which are its own, by which key and name
  // they are told apart, which hold no separator of keys, what the API stores
  // of a record that it is sent, and when two agree in all but their key.
  datatype Scope<!R> = Scope(owned: R -> bool, key: R -> string, canonical: R -> string, clean: R -> bool,
                         stored: R -> R, same: (R, R) -> bool)

  // The API stores a record under the key that it was sent with.
  ghost predicate KeepsKeys<R(!new)>(v: Scope<R>) {
    forall r {:trigger v.stored(r)} :: v.key(v.stored(r)) == v.key(r) && v.same(v.stored(r), r)
  }

  // Clean records of one key are of one name.
  ghost predicate NamedByKey<R(!new)>(v: Scope<R>) {
    && (forall r {:trigger v.stored(r)} :: v.clean(v.stored(r)) == v.clean(r))
    && forall r, s {:trigger v.key(r), v.key(s)} ::
      v.clean(r) && v.clean(s) && v.key(r) == v.key(s) ==> v.canonical(r) == v.canonical(s)
  }

  type Wanted<R> = map<string, R>

  ghost predicate IsKeyed<R(!new)>(wanted: Wanted<R>, v: Scope<R>) {
    forall k :: k in wanted ==> v.key(wanted[k]) == k
  }

  // ---------- states of a zone during a run ----------

  // Some record is as wanted: owned already, or written as it was sent.
  ghost predicate Placed<R(!new)>(s: Records<R>, v: Scope<R>, want: R) {
    exists id :: id in s && Matches(s[id], want, v) && (v.owned(s[id]) || s[id] == v.stored(want))
  }

  ghost predicate Holds<R(!new)>(s: Records<R>, v: Scope<R>, want: R) {
    exists id :: id in s && v.owned(s[id]) && Matches(s[id], want, v)
  }

  ghost predicate Matches<R(!new)>(r: R, want: R, v: Scope<R>) {
    v.key(r) == v.key(want) && v.same(r, want)
  }

  ghost predicate DistinctKeys<R(!new)>(s: Records<R>, v: Scope<R>) {
    forall i, j :: i in s && j in s && v.owned(s[i]) && v.owned(s[j]) && v.key(s[i]) == v.key(s[j]) ==> i == j
  }

  // The owned records are the wanted ones, each once.
  ghost predicate Converged<R(!new)>(s: Records<R>, v: Scope<R>, wanted: Wanted<R>) {
    && DistinctKeys(s, v)
    && (forall id :: id in s && v.owned(s[id]) ==> v.key(s[id]) in wanted && Matches(s[id], wanted[v.key(s[id])], v))
    && (forall k :: k in wanted ==> Holds(s, v, wanted[k]))
  }

  ghost predicate IsOwned<R(!new)>(wanted: Wanted<R>, v: Scope<R>) {
    forall k :: k in wanted ==> v.owned(v.stored(wanted[k]))
  }

  // Nothing has been deleted; what is new or changed is a wanted record.
  ghost predicate Growing<R(!new)>(before: Records<R>, s: Records<R>, v: Scope<R>, wanted: Wanted<R>) {
    && (forall id :: id in before ==> id in s)
    && (forall id :: id in s ==> IsStep(before, s, v, wanted, id))
  }

  ghost predicate IsStep<R(!new)>(before: Records<R>, s: Records<R>, v: Scope<R>, wanted: Wanted<R>, id: RecordId)
    requires id in s
  {
    || (id in before && s[id] == before[id])
    || (v.key(s[id]) in wanted && s[id] == v.stored(wanted[v.key(s[id])])
        && (id in before ==> v.owned(before[id]) && v.key(before[id]) == v.key(s[id])))
  }

  // Only owned, unwanted records have been deleted, and that only once every
  // wanted record was there.
  ghost predicate Reconciling<R(!new)>(before: Records<R>, s: Records<R>, v: Scope<R>, wanted: Wanted<R>) {
    && (forall id :: id in s ==> IsStep(before, s, v, wanted, id))
    && (forall id :: id in before && id !in s ==>
          v.owned(before[id]) && v.key(before[id]) !in wanted && forall k :: k in wanted ==> Placed(s, v, wanted[k]))
  }

  // Records<R> of others stay as they are, and none is added to them.
  ghost predicate OthersUntouched<R(!new)>(before: Records<R>, s: Records<R>, v: Scope<R>) {
    && (forall id :: id in before && !v.owned(before[id]) ==> id in s && s[id] == before[id])
    && (forall id :: id in s && !v.owned(s[id]) ==> id in before && s[id] == before[id])
  }

  ghost predicate OwnedUnchanged<R(!new)>(before: Records<R>, s: Records<R>, v: Scope<R>) {
    && (forall id :: id in before && v.owned(before[id]) ==> id in s && s[id] == before[id])
    && (forall id :: id in s && v.owned(s[id]) ==> id in before && s[id] == before[id])
  }

  ghost predicate HasManaged<R(!new)>(s: Records<R>, v: Scope<R>, name: string) {
    exists id :: id in s && v.owned(s[id]) && v.canonical(s[id]) == name
  }

  ghost predicate WantsName<R(!new)>(wanted: Wanted<R>, v: Scope<R>, name: string) {
    exists k :: k in wanted && v.canonical(wanted[k]) == name
  }

  ghost predicate AllClean<R(!new)>(s: Records<R>, v: Scope<R>) {
    forall id :: id in s ==> v.clean(s[id])
  }

  ghost predicate WantedIsClean<R(!new)>(wanted: Wanted<R>, v: Scope<R>) {
    forall k :: k in wanted ==> v.clean(wanted[k])
  }

  lemma ReconcilingLeavesOthers<R(!new)>(before: Records<R>, s: Records<R>, v: Scope<R>, wanted: Wanted<R>)
    requires IsOwned(wanted, v) && Reconciling(before, s, v, wanted)
    ensures OthersUntouched(before, s, v)
  {
    forall id | id in before && !v.owned(before[id])
      ensures id in s && s[id] == before[id]
    {
      assert id in s;
      assert IsStep(before, s, v, wanted, id);
    }
    forall id | id in s && !v.owned(s[id])
      ensures id in before && s[id] == before[id]
    {
      assert IsStep(before, s, v, wanted, id);
    }
  }

  lemma ReconcilingKeepsNames<R(!new)>(before: Records<R>, s: Records<R>, v: Scope<R>, wanted: Wanted<R>, name: string)
    requires KeepsKeys(v) && NamedByKey(v) && AllClean(before, v) && WantedIsClean(wanted, v) && IsOwned(wanted, v)
    requires IsKeyed(wanted, v)
    requires Reconciling(before, s, v, wanted)
    requires WantsName(wanted, v, name) && HasManaged(before, v, name)
    ensures HasManaged(s, v, name)
  {
    var id :| id in before && v.owned(before[id]) && v.canonical(before[id]) == name;
    if id in s {
      assert IsStep(before, s, v, wanted, id);
      if s[id] != before[id] {
        var want := wanted[v.key(s[id])];
        assert v.key(before[id]) == v.key(want);
      }
      assert v.owned(s[id]) && v.canonical(s[id]) == name;
    } else {
      var k :| k in wanted && v.canonical(wanted[k]) == name;
      assert Placed(s, v, wanted[k]);
      var j :| j in s && Matches(s[j], wanted[k], v) && (v.owned(s[j]) || s[j] == v.stored(wanted[k]));
      assert IsStep(before, s, v, wanted, j);
      assert v.owned(s[j]) && v.canonical(s[j]) == name;
    }
  }

  // ---------- the API ----------

  class Zone<R(!new)> {
    var records: Records<R>
    var next: RecordId
    // The records after every call so far.
    ghost var history: seq<Records<R>>
    // How many calls have failed, of the API and of the store that knows the nodes.
    ghost var faults: nat

    ghost predicate Valid()
      reads this
    {
      forall id :: id in records ==> id < next
    }

    // Others write and delete records that are not of this owner.
    method OthersWrite(id: RecordId, r: R, v: Scope<R>)
      requires Valid() && AllClean(records, v)
      modifies this`records, this`next
      ensures Valid() && AllClean(records, v)
      ensures OwnedUnchanged(old(records), records, v)
    {
      if (id in records ==> !v.owned(records[id])) && !v.owned(r) && v.clean(r) {
        records, next := records[id := r], if id < next then next else id + 1;
      }
    }

    method OthersDelete(id: RecordId, v: Scope<R>)
      requires Valid() && AllClean(records, v)
      modifies this`records
      ensures Valid() && AllClean(records, v)
      ensures OwnedUnchanged(old(records), records, v)
    {
      if id in records && !v.owned(records[id]) {
        records := records - {id};
      }
    }

    method Attempt() returns (ok: bool)
      modifies this`faults
      ensures faults == old(faults) + Failures(ok)
    {
      ok := *;
      if !ok {
        faults := faults + 1;
      }
    }

    method ListRecords() returns (ok: bool, listed: Records<R>)
      modifies this`faults
      ensures faults == old(faults) + Failures(ok)
      ensures ok ==> listed == records
    {
      ok := Attempt();
      listed := records;
    }

    // A call that fails can have had its effect all the same.
    method CreateRecord(r: R, v: Scope<R>) returns (ok: bool)
      requires Valid()
      modifies this
      ensures Valid()
      ensures faults == old(faults) + Failures(ok)
      ensures history == old(history) + [records]
      ensures records == old(records) || records == old(records)[old(next) := v.stored(r)]
      ensures ok ==> records == old(records)[old(next) := v.stored(r)]
    {
      ok := Attempt();
      var reached: bool := *;
      if ok || reached {
        records, next := records[next := v.stored(r)], next + 1;
      }
      history := history + [records];
    }

    method UpdateRecord(id: RecordId, r: R, v: Scope<R>) returns (ok: bool)
      requires Valid() && id in records
      modifies this
      ensures Valid()
      ensures faults == old(faults) + Failures(ok)
      ensures history == old(history) + [records]
      ensures records == old(records) || records == old(records)[id := v.stored(r)]
      ensures ok ==> records == old(records)[id := v.stored(r)]
    {
      ok := Attempt();
      var reached: bool := *;
      if ok || reached {
        records := records[id := v.stored(r)];
      }
      history := history + [records];
    }

    method DeleteRecord(id: RecordId) returns (ok: bool)
      requires Valid()
      modifies this
      ensures Valid()
      ensures faults == old(faults) + Failures(ok)
      ensures history == old(history) + [records]
      ensures records == old(records) || records == old(records) - {id}
      ensures ok ==> records == old(records) - {id}
    {
      ok := Attempt();
      var reached: bool := *;
      if ok || reached {
        records := records - {id};
      }
      history := history + [records];
    }
  }

  // ---------- one reconciliation ----------

  // An owned record for every key of an owned record.
  ghost predicate Covers<R(!new)>(managed: Ids, rest: set<RecordId>, s: Records<R>, v: Scope<R>) {
    && (forall k :: k in managed ==> managed[k] in s && v.owned(s[managed[k]]) && v.key(s[managed[k]]) == k)
    && (forall id :: id in s && id !in rest && v.owned(s[id]) ==> v.key(s[id]) in managed)
  }

  method BuildManaged<R(!new)>(existing: Records<R>, v: Scope<R>) returns (managed: Ids)
    ensures Covers(managed, {}, existing, v)
  {
    managed := map[];
    var rest := existing.Keys;
    while rest != {}
      invariant rest <= existing.Keys
      invariant Covers(managed, rest, existing, v)
    {
      var id :| id in rest;
      if v.owned(existing[id]) {
        managed := managed[v.key(existing[id]) := id];
      }
      rest := rest - {id};
    }
  }

  // Another owner, or a record of another type, holds the wanted name.
  predicate Conflicts<R(!new)>(existing: Records<R>, v: Scope<R>, want: R) {
    exists id :: id in existing && v.canonical(existing[id]) == v.canonical(want) && !v.owned(existing[id])
  }

  type Ids = map<string, RecordId>

  // New records are known by their keys.
  ghost predicate CreatedAreKnown<R(!new)>(before: Records<R>, s: Records<R>, v: Scope<R>, created: Ids) {
    forall id :: id in s && id !in before ==> v.key(s[id]) in created && created[v.key(s[id])] == id
  }
  // After the wanted keys in `done`: `created` are the ids of new records.
  ghost predicate Placing<R(!new)>(before: Records<R>, s: Records<R>, v: Scope<R>, wanted: Wanted<R>, managed: Ids,
                                   done: set<string>, created: Ids)
  {
    && Growing(before, s, v, wanted)
    && (forall k :: k in done && k in wanted ==> Placed(s, v, wanted[k]) && !Conflicts(before, v, wanted[k]))
    && (forall k :: k in done && k in wanted && k in managed ==> managed[k] in s && Matches(s[managed[k]], wanted[k], v))
    && (forall k :: k in created ==> k in done && k !in managed)
    && CreatedAreKnown(before, s, v, created)
  }

  // A managed record has the wanted settings.
  predicate IsThere<R(!new)>(s: Records<R>, v: Scope<R>, want: R, managed: Ids, k: string) {
    k in managed && managed[k] in s && v.same(s[managed[k]], want)
  }

  // What every call leaves behind.
  ghost predicate Logged<R(!new)>(history: seq<Records<R>>, s: Records<R>, before: Records<R>, start: seq<Records<R>>,
                                  v: Scope<R>, wanted: Wanted<R>)
  {
    && start <= history
    && (forall i :: |start| <= i < |history| ==> Reconciling(before, history[i], v, wanted))
    && IsLast(history, s, before, start)
  }

  // The records are those after the last call, if there was one.
  ghost predicate IsLast<R(!new)>(history: seq<Records<R>>, s: Records<R>, before: Records<R>, start: seq<Records<R>>)
    requires start <= history
  {
    s == if |history| == |start| then before else history[|history| - 1]
  }

  lemma LogNext<R(!new)>(history: seq<Records<R>>, s: Records<R>, before: Records<R>, start: seq<Records<R>>,
                         v: Scope<R>, wanted: Wanted<R>, t: Records<R>)
    requires Logged(history, s, before, start, v, wanted) && Reconciling(before, t, v, wanted)
    ensures Logged(history + [t], t, before, start, v, wanted)
  {
  }

  // Writing a record of another key leaves a placed one in place.
  lemma PlacedStays<R(!new)>(s: Records<R>, v: Scope<R>, want: R, id: RecordId, r: R)
    requires Placed(s, v, want) && (id in s ==> v.key(s[id]) != v.key(want))
    ensures Placed(s[id := r], v, want)
  {
    var j :| j in s && Matches(s[j], want, v) && (v.owned(s[j]) || s[j] == v.stored(want));
    assert j in s[id := r] && s[id := r][j] == s[j];
  }

  lemma GrowingOne<R(!new)>(before: Records<R>, s: Records<R>, v: Scope<R>, wanted: Wanted<R>, k: string, id: RecordId)
    requires KeepsKeys(v) && Growing(before, s, v, wanted)
    requires k in wanted && v.key(wanted[k]) == k
    requires id in before ==> v.owned(before[id]) && v.key(before[id]) == k
    ensures Growing(before, s[id := v.stored(wanted[k])], v, wanted)
  {
    var t := s[id := v.stored(wanted[k])];
    assert v.key(t[id]) == k;
    forall i | i in t
      ensures IsStep(before, t, v, wanted, i)
    {
      if i != id {
        assert t[i] == s[i] && IsStep(before, s, v, wanted, i);
      }
    }
  }

  lemma PlacedOne<R(!new)>(before: Records<R>, s: Records<R>, v: Scope<R>, wanted: Wanted<R>, managed: Ids,
                           done: set<string>, created: Ids,
                   k: string, id: RecordId)
    requires KeepsKeys(v) && Covers(managed, {}, before, v)
    requires IsKeyed(wanted, v)
    requires Placing(before, s, v, wanted, managed, done, created)
    requires k in wanted && k !in done && !Conflicts(before, v, wanted[k])
    requires if k in managed then id == managed[k] else id !in s && id !in before
    ensures forall j :: j in done + {k} && j in wanted ==> Placed(s[id := v.stored(wanted[k])], v, wanted[j])
    ensures forall j :: j in done + {k} && j in wanted && j in managed ==>
      managed[j] in s[id := v.stored(wanted[k])] && Matches(s[id := v.stored(wanted[k])][managed[j]], wanted[j], v)
  {
    var t := s[id := v.stored(wanted[k])];
    forall j | j in done + {k} && j in wanted
      ensures Placed(t, v, wanted[j])
      ensures j in managed ==> managed[j] in t && Matches(t[managed[j]], wanted[j], v)
    {
      if j == k {
        assert Matches(t[id], wanted[k], v);
      } else {
        PlacedStays(s, v, wanted[j], id, v.stored(wanted[k]));
      }
    }
  }


  lemma CreatedOne<R(!new)>(before: Records<R>, s: Records<R>, v: Scope<R>, created: Ids, r: R, id: RecordId)
    requires CreatedAreKnown(before, s, v, created) && (id in before || v.key(r) !in created)
    ensures CreatedAreKnown(before, s[id := r], v, if id in before then created else created[v.key(r) := id])
  {
    var t := s[id := r];
    forall i | i in t && i !in before && i != id
      ensures v.key(t[i]) in created && created[v.key(t[i])] == i
    {
      assert i in s && t[i] == s[i];
    }
  }

  // The step of one wanted key.
  lemma PlacingOne<R(!new)>(before: Records<R>, s: Records<R>, v: Scope<R>, wanted: Wanted<R>, managed: Ids,
                            done: set<string>, created: Ids,
                   k: string, id: RecordId)
    requires KeepsKeys(v) && Covers(managed, {}, before, v)
    requires IsKeyed(wanted, v)
    requires Placing(before, s, v, wanted, managed, done, created)
    requires k in wanted && k !in done && !Conflicts(before, v, wanted[k])
    requires if k in managed then id == managed[k] else id !in s && id !in before
    ensures Placing(before, s[id := v.stored(wanted[k])], v, wanted, managed, done + {k},
                    if k in managed then created else created[k := id])
  {
    var r := v.stored(wanted[k]);
    assert v.key(r) == k;
    GrowingOne(before, s, v, wanted, k, id);
    PlacedOne(before, s, v, wanted, managed, done, created, k, id);
    CreatedOne(before, s, v, created, r, id);
  }


  // The step of a wanted key that a managed record has already.
  lemma PlacingNone<R(!new)>(before: Records<R>, s: Records<R>, v: Scope<R>, wanted: Wanted<R>, managed: Ids,
                             done: set<string>, created: Ids, k: string)
    requires KeepsKeys(v) && Covers(managed, {}, before, v)
    requires Placing(before, s, v, wanted, managed, done, created)
    requires k in wanted && v.key(wanted[k]) == k && k !in done && !Conflicts(before, v, wanted[k])
    requires k in managed && Matches(before[managed[k]], wanted[k], v)
    ensures Placing(before, s, v, wanted, managed, done + {k}, created)
  {
    var id := managed[k];
    assert id in s && IsStep(before, s, v, wanted, id);
    assert Matches(s[id], wanted[k], v);
    assert Placed(s, v, wanted[k]);
  }

  // ---------- how many calls a refused run makes ----------

  // An order in which a range over a map comes to its keys.
  predicate IsOrder(order: seq<string>, keys: set<string>) {
    if order == [] then keys == {} else order[0] in keys && IsOrder(order[1..], keys - {order[0]})
  }

  method ArbitraryOrder(keys: set<string>) returns (order: seq<string>)
    ensures IsOrder(order, keys)
  {
    if keys == {} {
      return [];
    }
    var k :| k in keys;
    var rest := ArbitraryOrder(keys - {k});
    assert ([k] + rest)[1..] == rest;
    return [k] + rest;
  }

  lemma {:induction false} OrderIsThere(keys: set<string>) returns (order: seq<string>)
    ensures IsOrder(order, keys)
  {
    if keys == {} {
      order := [];
    } else {
      var k :| k in keys;
      var rest := OrderIsThere(keys - {k});
      order := [k] + rest;
      assert order[1..] == rest;
    }
  }

  // The calls for the wanted keys in this order, up to the first conflict.
  function Calls<R(!new)>(existing: Records<R>, v: Scope<R>, wanted: Wanted<R>, managed: Ids, order: seq<string>): nat {
    if order == [] || order[0] !in wanted || Conflicts(existing, v, wanted[order[0]]) then 0
    else
      (if IsThere(existing, v, wanted[order[0]], managed, order[0]) then 0 else 1)
      + Calls(existing, v, wanted, managed, order[1..])
  }

  // Read off the listing: owned records hold the key, all of them with the wanted settings.
  ghost predicate IsHeld<R(!new)>(existing: Records<R>, v: Scope<R>, want: R) {
    && (exists id :: id in existing && v.owned(existing[id]) && v.key(existing[id]) == v.key(want))
    && (forall id :: id in existing && v.owned(existing[id]) && v.key(existing[id]) == v.key(want) ==>
          v.same(existing[id], want))
  }

  // No wanted key asks for a call: someone else has its name, or it is held as wanted.
  ghost predicate AllIdle<R(!new)>(existing: Records<R>, v: Scope<R>, wanted: Wanted<R>) {
    forall k :: k in wanted ==> Conflicts(existing, v, wanted[k]) || IsHeld(existing, v, wanted[k])
  }

  lemma HeldIsThere<R(!new)>(existing: Records<R>, v: Scope<R>, wanted: Wanted<R>, managed: Ids, k: string)
    requires IsKeyed(wanted, v) && Covers(managed, {}, existing, v)
    requires k in wanted && IsHeld(existing, v, wanted[k])
    ensures IsThere(existing, v, wanted[k], managed, k)
  {
    var id :| id in existing && v.owned(existing[id]) && v.key(existing[id]) == v.key(wanted[k]);
    assert k in managed;
  }

  lemma {:induction false} IdleMeansNoCalls<R(!new)>(existing: Records<R>, v: Scope<R>, wanted: Wanted<R>, managed: Ids,
                                                     order: seq<string>)
    requires IsKeyed(wanted, v) && Covers(managed, {}, existing, v)
    requires AllIdle(existing, v, wanted)
    ensures Calls(existing, v, wanted, managed, order) == 0
  {
    if order != [] && order[0] in wanted && !Conflicts(existing, v, wanted[order[0]]) {
      HeldIsThere(existing, v, wanted, managed, order[0]);
      IdleMeansNoCalls(existing, v, wanted, managed, order[1..]);
    }
  }

  // A key that asks for a call gets it if it comes first, with the record of
  // the map that is not as wanted.
  lemma BusyKeyGetsCall<R(!new)>(existing: Records<R>, v: Scope<R>, wanted: Wanted<R>, managed: Ids, k: string)
    returns (map': Ids, order: seq<string>)
    requires IsKeyed(wanted, v) && Covers(managed, {}, existing, v)
    requires k in wanted && !Conflicts(existing, v, wanted[k]) && !IsHeld(existing, v, wanted[k])
    ensures Covers(map', {}, existing, v) && IsOrder(order, wanted.Keys)
    ensures Calls(existing, v, wanted, map', order) > 0
  {
    map' := managed;
    if id :| id in existing && v.owned(existing[id]) && v.key(existing[id]) == k && !v.same(existing[id], wanted[k]) {
      map' := managed[k := id];
    }
    var rest := OrderIsThere(wanted.Keys - {k});
    order := [k] + rest;
    assert order[1..] == rest;
    assert !IsThere(existing, v, wanted[k], map', k);
  }

  // No call is made, whatever the order and the choice among records of one
  // key, if and only if no wanted key asks for one.
  lemma NoCallsIff<R(!new)>(existing: Records<R>, v: Scope<R>, wanted: Wanted<R>, managed: Ids)
    requires IsKeyed(wanted, v) && Covers(managed, {}, existing, v)
    ensures AllIdle(existing, v, wanted) <==> NeverCalls(existing, v, wanted)
  {
    if AllIdle(existing, v, wanted) {
      forall m, order | Covers(m, {}, existing, v) && IsOrder(order, wanted.Keys)
        ensures Calls(existing, v, wanted, m, order) == 0
      {
        IdleMeansNoCalls(existing, v, wanted, m, order);
      }
    } else {
      var k :| k in wanted && !Conflicts(existing, v, wanted[k]) && !IsHeld(existing, v, wanted[k]);
      var m, order := BusyKeyGetsCall(existing, v, wanted, managed, k);
    }
  }

  ghost predicate NeverCalls<R(!new)>(existing: Records<R>, v: Scope<R>, wanted: Wanted<R>) {
    forall m, order :: Covers(m, {}, existing, v) && IsOrder(order, wanted.Keys) ==>
      Calls(existing, v, wanted, m, order) == 0
  }

  // The calls made so far, and those to come unless something fails.
  ghost predicate Counted(made: int, todo: nat, total: nat, faultless: bool, ok: bool) {
    made + (if ok then todo else 0) <= total && (faultless ==> made + (if ok then todo else 0) == total)
  }

  method PlaceOne<R(!new)>(zone: Zone<R>, existing: Records<R>, ghost start: seq<Records<R>>, v: Scope<R>,
                  wanted: Wanted<R>, managed: Ids, k: string, ghost done: set<string>, ghost created: Ids)
    returns (ok: bool, ghost created': Ids)
    requires IsKeyed(wanted, v)
    requires KeepsKeys(v) && Covers(managed, {}, existing, v)
    requires zone.Valid() && Logged(zone.history, zone.records, existing, start, v, wanted)
    requires Placing(existing, zone.records, v, wanted, managed, done, created)
    requires k in wanted && k !in done
    modifies zone
    ensures zone.Valid() && Logged(zone.history, zone.records, existing, start, v, wanted)
    ensures zone.faults >= old(zone.faults)
    ensures !ok ==> Conflicts(existing, v, wanted[k]) || zone.faults > old(zone.faults)
    ensures ok ==> Placing(existing, zone.records, v, wanted, managed, done + {k}, created')
    // One call exactly for a key that is not there and free to be written.
    ensures |zone.history| ==
      |old(zone.history)|
      + if Conflicts(existing, v, wanted[k]) || IsThere(existing, v, wanted[k], managed, k) then 0 else 1
    ensures Conflicts(existing, v, wanted[k]) ==> !ok
  {
    var want := wanted[k];
    created' := created;
    if Conflicts(existing, v, want) {
      return false, created;
    }
    if k in managed {
      var id := managed[k];
      if v.same(existing[id], want) {
        PlacingNone(existing, zone.records, v, wanted, managed, done, created, k);
        return true, created;
      }
      PlacingOne(existing, zone.records, v, wanted, managed, done, created, k, id);
      ok := zone.UpdateRecord(id, want, v);
      LogNext(old(zone.history), old(zone.records), existing, start, v, wanted, zone.records);
    } else {
      PlacingOne(existing, zone.records, v, wanted, managed, done, created, k, zone.next);
      created' := created[k := zone.next];
      ok := zone.CreateRecord(want, v);
      LogNext(old(zone.history), old(zone.records), existing, start, v, wanted, zone.records);
    }
  }

  ghost predicate NoneConflicts<R(!new)>(existing: Records<R>, v: Scope<R>, wanted: Wanted<R>) {
    forall k :: k in wanted ==> !Conflicts(existing, v, wanted[k])
  }

  method PlaceAll<R(!new)>(zone: Zone<R>, existing: Records<R>, ghost start: seq<Records<R>>, v: Scope<R>,
                           wanted: Wanted<R>, managed: Ids, order: seq<string>)
    returns (ok: bool, ghost created: Ids)
    requires IsKeyed(wanted, v) && IsOrder(order, wanted.Keys)
    requires KeepsKeys(v) && Covers(managed, {}, existing, v)
    requires zone.Valid() && Logged(zone.history, zone.records, existing, start, v, wanted)
    requires zone.records == existing
    modifies zone
    ensures zone.Valid() && Logged(zone.history, zone.records, existing, start, v, wanted)
    ensures zone.faults >= old(zone.faults)
    ensures !ok ==> !NoneConflicts(existing, v, wanted) || zone.faults > old(zone.faults)
    ensures ok ==> NoneConflicts(existing, v, wanted)
    ensures ok ==> Placing(existing, zone.records, v, wanted, managed, wanted.Keys, created)
    ensures |zone.history| <= |old(zone.history)| + Calls(existing, v, wanted, managed, order)
    ensures zone.faults == old(zone.faults) ==>
      |zone.history| == |old(zone.history)| + Calls(existing, v, wanted, managed, order)
  {
    ok, created := true, map[];
    var todo, rest := order, wanted.Keys;
    while ok && todo != []
      invariant rest <= wanted.Keys && IsOrder(todo, rest)
      invariant zone.Valid() && Logged(zone.history, zone.records, existing, start, v, wanted)
      invariant zone.faults >= old(zone.faults)
      invariant !ok ==> !NoneConflicts(existing, v, wanted) || zone.faults > old(zone.faults)
      invariant ok ==> Placing(existing, zone.records, v, wanted, managed, wanted.Keys - rest, created)
      invariant Counted(|zone.history| - |old(zone.history)|, Calls(existing, v, wanted, managed, todo),
                        Calls(existing, v, wanted, managed, order), zone.faults == old(zone.faults), ok)
      decreases ok, todo
    {
      var k := todo[0];
      ok, created := PlaceOne(zone, existing, start, v, wanted, managed, k, wanted.Keys - rest, created);
      assert wanted.Keys - rest + {k} == wanted.Keys - (rest - {k});
      todo, rest := todo[1..], rest - {k};
    }
    assert ok ==> wanted.Keys - rest == wanted.Keys;
  }

  ghost predicate AllPlaced<R(!new)>(before: Records<R>, s: Records<R>, v: Scope<R>, wanted: Wanted<R>, managed: Ids,
                                     created: Ids)
  {
    IsKeyed(wanted, v) && Covers(managed, {}, before, v) && Placing(before, s, v, wanted, managed, wanted.Keys, created)
  }

  // While the managed keys in `rest` may still have to be deleted.
  ghost predicate Pruning<R(!new)>(full: Records<R>, s: Records<R>, v: Scope<R>, wanted: Wanted<R>, managed: Ids,
                                   rest: set<string>)
  {
    && (forall id :: id in s ==> id in full && s[id] == full[id])
    && (forall id :: id in full && id !in s ==>
          v.key(full[id]) in managed && v.key(full[id]) !in wanted && managed[v.key(full[id])] == id)
    && (forall k :: k in managed && k !in wanted && k !in rest ==> managed[k] !in s)
  }

  lemma PlacedSurvives<R(!new)>(full: Records<R>, s: Records<R>, v: Scope<R>, wanted: Wanted<R>, managed: Ids,
                                rest: set<string>, k: string)
    requires Pruning(full, s, v, wanted, managed, rest)
    requires k in wanted && v.key(wanted[k]) == k && Placed(full, v, wanted[k])
    ensures Placed(s, v, wanted[k])
  {
    var j :| j in full && Matches(full[j], wanted[k], v) && (v.owned(full[j]) || full[j] == v.stored(wanted[k]));
    assert j in s && s[j] == full[j];
  }

  lemma PrunedIsReconciling<R(!new)>(before: Records<R>, full: Records<R>, s: Records<R>, v: Scope<R>,
                                     wanted: Wanted<R>, managed: Ids, rest: set<string>,
                            created: Ids)
    requires AllPlaced(before, full, v, wanted, managed, created)
    requires Pruning(full, s, v, wanted, managed, rest)
    ensures Reconciling(before, s, v, wanted)
  {
    forall id | id in s
      ensures IsStep(before, s, v, wanted, id)
    {
      assert IsStep(before, full, v, wanted, id);
    }
    forall k | k in wanted
      ensures Placed(s, v, wanted[k])
    {
      PlacedSurvives(full, s, v, wanted, managed, rest, k);
    }
    forall id | id in before && id !in s
      ensures v.owned(before[id]) && v.key(before[id]) !in wanted
    {
      assert id in full && IsStep(before, full, v, wanted, id);
    }
  }

  lemma PruningOne<R(!new)>(before: Records<R>, full: Records<R>, s: Records<R>, v: Scope<R>, wanted: Wanted<R>,
                            managed: Ids, rest: set<string>,
                   created: Ids, k: string)
    requires AllPlaced(before, full, v, wanted, managed, created)
    requires Pruning(full, s, v, wanted, managed, rest)
    requires k in managed && k !in wanted
    ensures Pruning(full, s - {managed[k]}, v, wanted, managed, rest - {k})
    ensures Reconciling(before, s, v, wanted) && Reconciling(before, s - {managed[k]}, v, wanted)
  {
    var id := managed[k];
    assert id in full && IsStep(before, full, v, wanted, id);
    PrunedIsReconciling(before, full, s, v, wanted, managed, rest, created);
    PrunedIsReconciling(before, full, s - {id}, v, wanted, managed, rest - {k}, created);
  }

  method PruneOne<R(!new)>(zone: Zone<R>, ghost before: Records<R>, ghost start: seq<Records<R>>,
                           ghost full: Records<R>, v: Scope<R>, wanted: Wanted<R>,
                  managed: Ids, ghost created: Ids, k: string, ghost rest: set<string>)
    returns (ok: bool)
    requires AllPlaced(before, full, v, wanted, managed, created) && Pruning(full, zone.records, v, wanted, managed, rest)
    requires zone.Valid() && Logged(zone.history, zone.records, before, start, v, wanted)
    requires k in managed
    modifies zone
    ensures zone.Valid() && Logged(zone.history, zone.records, before, start, v, wanted)
    ensures zone.faults >= old(zone.faults) + Failures(ok)
    ensures ok ==> Pruning(full, zone.records, v, wanted, managed, rest - {k})
    ensures managed.Keys <= wanted.Keys && old(zone.history) == start ==> zone.history == start
  {
    if k in wanted {
      return true;
    }
    PruningOne(before, full, zone.records, v, wanted, managed, rest, created, k);
    ok := zone.DeleteRecord(managed[k]);
    LogNext(old(zone.history), old(zone.records), before, start, v, wanted, zone.records);
  }

  method PruneAll<R(!new)>(zone: Zone<R>, ghost before: Records<R>, ghost start: seq<Records<R>>, v: Scope<R>,
                           wanted: Wanted<R>, managed: Ids,
                  ghost created: Ids)
    returns (ok: bool)
    requires AllPlaced(before, zone.records, v, wanted, managed, created)
    requires zone.Valid() && Logged(zone.history, zone.records, before, start, v, wanted)
    modifies zone
    ensures zone.Valid() && Logged(zone.history, zone.records, before, start, v, wanted)
    ensures zone.faults >= old(zone.faults) + Failures(ok)
    ensures ok ==> Pruning(old(zone.records), zone.records, v, wanted, managed, {})
    ensures managed.Keys <= wanted.Keys && old(zone.history) == start ==> zone.history == start
  {
    ok := true;
    var rest := managed.Keys;
    ghost var full := zone.records;
    while ok && rest != {}
      invariant rest <= managed.Keys
      invariant zone.Valid() && Logged(zone.history, zone.records, before, start, v, wanted)
      invariant zone.faults >= old(zone.faults) + Failures(ok)
      invariant ok ==> Pruning(full, zone.records, v, wanted, managed, rest)
      invariant managed.Keys <= wanted.Keys && old(zone.history) == start ==> zone.history == start
      decreases ok, rest
    {
      var k :| k in rest;
      ok := PruneOne(zone, before, start, full, v, wanted, managed, created, k, rest);
      rest := rest - {k};
    }
  }

  lemma OwnedIsWanted<R(!new)>(before: Records<R>, full: Records<R>, s: Records<R>, v: Scope<R>, wanted: Wanted<R>,
                               managed: Ids, created: Ids, id: RecordId)
    requires KeepsKeys(v) && DistinctKeys(before, v)
    requires AllPlaced(before, full, v, wanted, managed, created)
    requires Pruning(full, s, v, wanted, managed, {})
    requires id in s && v.owned(s[id])
    ensures v.key(s[id]) in wanted && Matches(s[id], wanted[v.key(s[id])], v)
    ensures if v.key(s[id]) in managed then id == managed[v.key(s[id])]
            else v.key(s[id]) in created && id == created[v.key(s[id])]
  {
    assert IsStep(before, full, v, wanted, id);
    var k := v.key(s[id]);
    if id in before {
      assert v.owned(before[id]) && v.key(before[id]) == k;
      assert id == managed[k];
    }
  }

  lemma PlacedHolds<R(!new)>(before: Records<R>, full: Records<R>, s: Records<R>, v: Scope<R>, wanted: Wanted<R>,
                             managed: Ids, created: Ids, k: string)
    requires IsOwned(wanted, v)
    requires AllPlaced(before, full, v, wanted, managed, created)
    requires Pruning(full, s, v, wanted, managed, {})
    requires k in wanted
    ensures Holds(s, v, wanted[k])
  {
    PlacedSurvives(full, s, v, wanted, managed, {}, k);
  }

  // Of two owned records with one key, the one that is not managed stays.
  lemma TwiceStaysTwice<R(!new)>(before: Records<R>, full: Records<R>, s: Records<R>, v: Scope<R>, wanted: Wanted<R>,
                                 managed: Ids, created: Ids, id: RecordId)
    requires IsOwned(wanted, v)
    requires AllPlaced(before, full, v, wanted, managed, created)
    requires Pruning(full, s, v, wanted, managed, {})
    requires id in before && v.owned(before[id]) && managed[v.key(before[id])] != id
    ensures !Converged(s, v, wanted)
  {
    var k := v.key(before[id]);
    assert id in full && IsStep(before, full, v, wanted, id);
    assert id in s && v.owned(s[id]) && v.key(s[id]) == k;
    if k in wanted {
      var j := managed[k];
      assert j in full && IsStep(before, full, v, wanted, j);
      assert j in s && v.owned(s[j]) && v.key(s[j]) == k;
    }
  }

  lemma DistinctConverges<R(!new)>(before: Records<R>, full: Records<R>, s: Records<R>, v: Scope<R>, wanted: Wanted<R>,
                                   managed: Ids, created: Ids)
    requires KeepsKeys(v) && IsOwned(wanted, v) && DistinctKeys(before, v)
    requires AllPlaced(before, full, v, wanted, managed, created)
    requires Pruning(full, s, v, wanted, managed, {})
    ensures Converged(s, v, wanted)
  {
    forall id | id in s && v.owned(s[id])
      ensures v.key(s[id]) in wanted && Matches(s[id], wanted[v.key(s[id])], v)
      ensures if v.key(s[id]) in managed then id == managed[v.key(s[id])]
              else v.key(s[id]) in created && id == created[v.key(s[id])]
    {
      OwnedIsWanted(before, full, s, v, wanted, managed, created, id);
    }
    forall k | k in wanted
      ensures Holds(s, v, wanted[k])
    {
      PlacedHolds(before, full, s, v, wanted, managed, created, k);
    }
  }

  // A finished run has converged if and only if no key was held twice.
  lemma FinishedIsConverged<R(!new)>(before: Records<R>, full: Records<R>, s: Records<R>, v: Scope<R>,
                                     wanted: Wanted<R>, managed: Ids, created: Ids)
    requires KeepsKeys(v) && IsOwned(wanted, v)
    requires AllPlaced(before, full, v, wanted, managed, created)
    requires Pruning(full, s, v, wanted, managed, {})
    ensures Converged(s, v, wanted) <==> DistinctKeys(before, v)
  {
    if DistinctKeys(before, v) {
      DistinctConverges(before, full, s, v, wanted, managed, created);
    } else {
      var i, j :|
        && i in before && j in before && i != j
        && v.owned(before[i]) && v.owned(before[j]) && v.key(before[i]) == v.key(before[j]);
      var k := v.key(before[i]);
      TwiceStaysTwice(before, full, s, v, wanted, managed, created, if managed[k] == i then j else i);
    }
  }

  lemma ConvergedNeedsNothing<R(!new)>(before: Records<R>, v: Scope<R>, wanted: Wanted<R>, managed: Ids)
    requires IsKeyed(wanted, v) && Covers(managed, {}, before, v) && Converged(before, v, wanted)
    ensures AllIdle(before, v, wanted) && managed.Keys <= wanted.Keys
  {
    forall k | k in wanted
      ensures IsHeld(before, v, wanted[k])
    {
      var id :| id in before && v.owned(before[id]) && Matches(before[id], wanted[k], v);
    }
  }

  // All that follows the listing of the records; `order` is the one of the
  // range over the wanted keys. A run that is refused makes the calls for the
  // keys before the first conflict: none at all on an idle listing.
  method ReconcileWanted<R(!new)>(zone: Zone<R>, existing: Records<R>, v: Scope<R>, wanted: Wanted<R>,
                                  order: seq<string>)
    returns (ok: bool, ghost managed: Ids)
    requires KeepsKeys(v) && IsKeyed(wanted, v) && IsOrder(order, wanted.Keys)
    requires zone.Valid() && existing == zone.records
    modifies zone
    ensures zone.Valid() && Logged(zone.history, zone.records, existing, old(zone.history), v, wanted)
    ensures ok && IsOwned(wanted, v) ==> (Converged(zone.records, v, wanted) <==> DistinctKeys(existing, v))
    ensures zone.faults >= old(zone.faults)
    ensures ok ==> NoneConflicts(existing, v, wanted)
    ensures !ok ==> !NoneConflicts(existing, v, wanted) || zone.faults > old(zone.faults)
    ensures Converged(existing, v, wanted) ==> zone.history == old(zone.history)
    ensures Covers(managed, {}, existing, v)
    ensures !NoneConflicts(existing, v, wanted) && zone.faults == old(zone.faults) ==>
      |zone.history| == |old(zone.history)| + Calls(existing, v, wanted, managed, order)
    ensures !NoneConflicts(existing, v, wanted) && AllIdle(existing, v, wanted) ==> zone.history == old(zone.history)
  {
    var byKey := BuildManaged(existing, v);
    managed := byKey;
    if Converged(existing, v, wanted) {
      ConvergedNeedsNothing(existing, v, wanted, managed);
    }
    if AllIdle(existing, v, wanted) {
      IdleMeansNoCalls(existing, v, wanted, managed, order);
    }
    ghost var created;
    ok, created := PlaceAll(zone, existing, zone.history, v, wanted, byKey, order);
    if ok {
      ghost var full := zone.records;
      ok := PruneAll(zone, existing, old(zone.history), v, wanted, byKey, created);
      if ok && IsOwned(wanted, v) {
        FinishedIsConverged(existing, full, zone.records, v, wanted, managed, created);
      }
    }
  }

  // A refusal that has written: a key that no record holds comes before one
  // whose name belongs to someone else.
  method RefusedAfterCreate<R(!new)>(zone: Zone<R>, v: Scope<R>, wanted: Wanted<R>, free: string, taken: string)
    returns (ok: bool)
    requires KeepsKeys(v) && IsKeyed(wanted, v) && zone.Valid()
    requires wanted.Keys == {free, taken} && free != taken
    requires forall id :: id in zone.records && v.owned(zone.records[id]) ==> v.key(zone.records[id]) != free
    requires !Conflicts(zone.records, v, wanted[free]) && Conflicts(zone.records, v, wanted[taken])
    modifies zone
    ensures zone.faults == old(zone.faults) ==> !ok && |zone.history| == |old(zone.history)| + 1
  {
    assert IsOrder([free, taken], wanted.Keys) by {
      assert [free, taken][1..] == [taken] && [taken][1..] == [];
      assert wanted.Keys - {free} == {taken} && {taken} - {taken} == {};
    }
    ghost var managed;
    ok, managed := ReconcileWanted(zone, zone.records, v, wanted, [free, taken]);
  }
}
