/**
 * The reconciler's request table: which vehicle holds each request's pickup and which its dropoff,
 * and whether the request has been announced as scheduled.
 */
module Bookkeeping {
  import opened Common

  datatype RequestEntry = RequestEntry(pickupVehicle: Option<VehicleId>, dropoffVehicle: Option<VehicleId>, scheduled: bool)

  /** The entry a newly submitted request gets: nothing held, not scheduled. */
  const Unassigned := RequestEntry(None, None, false)

  type Entries = map<RequestId, RequestEntry>

  function Holder(e: RequestEntry, slot: Slot): Option<VehicleId> {
    match slot
    case PickupSlot => e.pickupVehicle
    case DropoffSlot => e.dropoffVehicle
  }

  function WithHolder(e: RequestEntry, slot: Slot, v: Option<VehicleId>): RequestEntry {
    match slot
    case PickupSlot => e.(pickupVehicle := v)
    case DropoffSlot => e.(dropoffVehicle := v)
  }

  /** The other slot of an entry, which a change to `slot` leaves alone. */
  function Other(slot: Slot): Slot {
    match slot
    case PickupSlot => DropoffSlot
    case DropoffSlot => PickupSlot
  }

  // ---------------------------------------------------------------------------------------------
  // Releasing slots (pass 1)

  /** `slot` emptied for each listed request; a request without an entry is a null dereference. */
  function SlotsReleased(entries: Entries, ids: seq<RequestId>, slot: Slot): Result<Entries>
    decreases |ids|
  {
    if ids == [] then Success(entries)
    else if ids[0] !in entries then Failure(UnknownRequest(ids[0]))
    else SlotsReleased(entries[ids[0] := WithHolder(entries[ids[0]], slot, None)], ids[1..], slot)
  }

  /**
   * Releasing succeeds exactly when every listed request has an entry; it then empties `slot` of the
   * listed requests and changes nothing else.
   */
  lemma {:induction false} SlotsReleasedSpec(entries: Entries, ids: seq<RequestId>, slot: Slot)
    ensures var r := SlotsReleased(entries, ids, slot);
      && (r.Success? <==> forall i :: 0 <= i < |ids| ==> ids[i] in entries)
      && (r.Success? ==> r.value.Keys == entries.Keys)
      && (r.Success? ==> forall q :: q in entries && q in ids ==> r.value[q] == WithHolder(entries[q], slot, None))
      && (r.Success? ==> forall q :: q in entries && q !in ids ==> r.value[q] == entries[q])
    decreases |ids|
  {
    if ids != [] && ids[0] in entries {
      var e1 := entries[ids[0] := WithHolder(entries[ids[0]], slot, None)];
      SlotsReleasedSpec(e1, ids[1..], slot);
      assert forall i :: 1 <= i < |ids| ==> ids[i] == ids[1..][i - 1];
      assert forall q :: q in ids ==> q == ids[0] || q in ids[1..];
    }
  }

  /** The loop that empties one slot of every listed request. */
  method ReleaseSlots(entries: Entries, ids: seq<RequestId>, slot: Slot) returns (r: Result<Entries>)
    ensures r == SlotsReleased(entries, ids, slot)
  {
    var current := entries;
    var k := 0;
    while k < |ids|
      invariant 0 <= k <= |ids|
      invariant SlotsReleased(current, ids[k..], slot) == SlotsReleased(entries, ids, slot)
    {
      assert ids[k..][0] == ids[k] && ids[k..][1..] == ids[k + 1..];
      if ids[k] !in current {
        return Failure(UnknownRequest(ids[k]));
      }
      current := current[ids[k] := WithHolder(current[ids[k]], slot, None)];
      k := k + 1;
    }
    return Success(current);
  }

  // ---------------------------------------------------------------------------------------------
  // Registering slots (pass 2)

  /**
   * `slot` of each listed request given to vehicle `v`, in list order. A request without an entry is a
   * null dereference; a slot that is already held, by another stop or by an earlier copy of the same id
   * in the list, fails the precondition check.
   */
  function SlotsRegistered(entries: Entries, ids: seq<RequestId>, slot: Slot, v: VehicleId): Result<Entries>
    decreases |ids|
  {
    if ids == [] then Success(entries)
    else if ids[0] !in entries then Failure(UnknownRequest(ids[0]))
    else match Holder(entries[ids[0]], slot)
      case Some(holder) => Failure(SlotTaken(ids[0], slot, v, holder))
      case None => SlotsRegistered(entries[ids[0] := WithHolder(entries[ids[0]], slot, Some(v))], ids[1..], slot, v)
  }

  /** Whether `ids` can be registered: every id has an entry whose slot is free and occurs once. */
  predicate Registrable(entries: Entries, ids: seq<RequestId>, slot: Slot) {
    forall i :: 0 <= i < |ids| ==> ids[i] in entries && Holder(entries[ids[i]], slot).None? && ids[i] !in ids[..i]
  }

  /** Registering the first id leaves the rest registrable exactly when the whole list was. */
  lemma RegistrableFront(entries: Entries, ids: seq<RequestId>, slot: Slot, v: VehicleId)
    requires ids != [] && ids[0] in entries && Holder(entries[ids[0]], slot).None?
    ensures Registrable(entries, ids, slot)
        <==> Registrable(entries[ids[0] := WithHolder(entries[ids[0]], slot, Some(v))], ids[1..], slot)
  {
    var e1 := entries[ids[0] := WithHolder(entries[ids[0]], slot, Some(v))];
    var tail := ids[1..];
    assert forall i :: 1 <= i < |ids| ==> ids[i] == tail[i - 1] && ids[..i] == [ids[0]] + tail[..i - 1];
    if Registrable(entries, ids, slot) {
      forall i | 0 <= i < |tail|
        ensures tail[i] in e1 && Holder(e1[tail[i]], slot).None? && tail[i] !in tail[..i]
      {
        assert ids[i + 1] == tail[i];
        assert ids[..i + 1] == [ids[0]] + tail[..i];
      }
    }
    if Registrable(e1, tail, slot) {
      forall i | 0 <= i < |ids|
        ensures ids[i] in entries && Holder(entries[ids[i]], slot).None? && ids[i] !in ids[..i]
      {
        if i > 0 {
          assert ids[i] == tail[i - 1];
          assert ids[i] != ids[0];
        }
      }
    }
  }

  /**
   * Registering succeeds exactly when the ids are registrable; it then gives `slot` of every listed
   * request to `v` and changes nothing else. A failure names a request of the list.
   */
  lemma {:induction false} SlotsRegisteredSpec(entries: Entries, ids: seq<RequestId>, slot: Slot, v: VehicleId)
    ensures var r := SlotsRegistered(entries, ids, slot, v);
      && (r.Success? <==> Registrable(entries, ids, slot))
      && (r.Success? ==> r.value.Keys == entries.Keys)
      && (r.Success? ==> forall q :: q in entries && q in ids ==> r.value[q] == WithHolder(entries[q], slot, Some(v)))
      && (r.Success? ==> forall q :: q in entries && q !in ids ==> r.value[q] == entries[q])
      && (r.Failure? ==> r.error.UnknownRequest? || (r.error.SlotTaken? && r.error.slot == slot && r.error.claimant == v))
    decreases |ids|
  {
    if ids != [] && ids[0] in entries && Holder(entries[ids[0]], slot).None? {
      var e1 := entries[ids[0] := WithHolder(entries[ids[0]], slot, Some(v))];
      SlotsRegisteredSpec(e1, ids[1..], slot, v);
      RegistrableFront(entries, ids, slot, v);
      assert forall q :: q in ids ==> q == ids[0] || q in ids[1..];
    } else if ids != [] {
      assert !Registrable(entries, ids, slot) by {
        if ids[0] in entries {
          assert Holder(entries[ids[0]], slot).Some?;
        }
      }
    }
  }

  /** The loop that registers one slot of every listed request for vehicle `v`. */
  method RegisterSlots(entries: Entries, ids: seq<RequestId>, slot: Slot, v: VehicleId) returns (r: Result<Entries>)
    ensures r == SlotsRegistered(entries, ids, slot, v)
  {
    var current := entries;
    var k := 0;
    while k < |ids|
      invariant 0 <= k <= |ids|
      invariant SlotsRegistered(current, ids[k..], slot, v) == SlotsRegistered(entries, ids, slot, v)
    {
      assert ids[k..][0] == ids[k] && ids[k..][1..] == ids[k + 1..];
      if ids[k] !in current {
        return Failure(UnknownRequest(ids[k]));
      }
      var held := Holder(current[ids[k]], slot);
      if held.Some? {
        return Failure(SlotTaken(ids[k], slot, v, held.value));
      }
      current := current[ids[k] := WithHolder(current[ids[k]], slot, Some(v))];
      k := k + 1;
    }
    return Success(current);
  }

  // ---------------------------------------------------------------------------------------------
  // Global validation

  /** A request is never half-assigned: both slots empty, or both held by the same vehicle. */
  predicate Paired(e: RequestEntry) {
    e.pickupVehicle == e.dropoffVehicle
  }

  /** The complaint raised for an entry that is not paired, in the order `implement` checks them. */
  function PairingViolation(q: RequestId, e: RequestEntry): (f: Fatal)
    requires !Paired(e)
    ensures f.PickupWithoutDropoff? <==> e.pickupVehicle.Some? && e.dropoffVehicle.None?
    ensures f.DropoffWithoutPickup? <==> e.pickupVehicle.None? && e.dropoffVehicle.Some?
    ensures f.SplitAssignment? <==> e.pickupVehicle.Some? && e.dropoffVehicle.Some?
    ensures f.request == q
    ensures f.PickupWithoutDropoff? ==> Some(f.vehicle) == e.pickupVehicle
    ensures f.DropoffWithoutPickup? ==> Some(f.vehicle) == e.dropoffVehicle
    ensures f.SplitAssignment? ==> Some(f.pickupVehicle) == e.pickupVehicle && Some(f.dropoffVehicle) == e.dropoffVehicle
  {
    if e.pickupVehicle.Some? && e.dropoffVehicle.None? then PickupWithoutDropoff(q, e.pickupVehicle.value)
    else if e.pickupVehicle.None? then DropoffWithoutPickup(q, e.dropoffVehicle.value)
    else SplitAssignment(q, e.pickupVehicle.value, e.dropoffVehicle.value)
  }

  /** The requests validation announces as scheduled: assigned, and not announced before. */
  function NewlyScheduled(entries: Entries): set<RequestId> {
    set q | q in entries && entries[q].pickupVehicle.Some? && !entries[q].scheduled
  }

  /**
   * The table after validation: every newly scheduled request is marked, for good. The flag is only
   * ever raised, nothing else changes, and no marked request is newly scheduled again.
   */
  function MarkScheduled(entries: Entries): (r: Entries)
    ensures r.Keys == entries.Keys
    ensures forall q :: q in entries ==> r[q].scheduled == (entries[q].scheduled || entries[q].pickupVehicle.Some?)
    ensures forall q :: q in entries ==> r[q].pickupVehicle == entries[q].pickupVehicle && r[q].dropoffVehicle == entries[q].dropoffVehicle
    ensures NewlyScheduled(r) == {}
  {
    map q | q in entries :: if q in NewlyScheduled(entries) then entries[q].(scheduled := true) else entries[q]
  }
}
