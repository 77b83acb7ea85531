/** The process-wide call bookkeeping of src/index.js: the `activeCallsMap`
    registry, the serial call queue `processCallQueue`, and the final-status
    reconciliation of the `/webhook/status` handler. */
module Calls {
  import opened Common
  import opened Matching
  import opened Ledger
  import opened EmailSave

  /** What the queue stores for a dialled contact (its start time is left out). */
  datatype CallInfo = CallInfo(name: string, phoneNumber: string)

  const CallInitiatedStatus := "Call Initiated"
  const CallFailedStatus := "Call Failed"
  const CompletedWithEmail := "Call Completed - Email Collected"
  const CompletedNotInterested := "Call Completed - Not Interested"

  /** `record[key]`, with an absent column read as the empty string. */
  function Field(r: Record, key: string): string
  {
    if key in r then r[key] else ""
  }

  function InfoOf(contact: Record): CallInfo
  {
    CallInfo(Field(contact, NameKey), Field(contact, PhoneKey))
  }

  predicate Distinct(s: seq<string>)
  {
    forall i, j :: 0 <= i < j < |s| ==> s[i] != s[j]
  }

  /** The key order after `Map.prototype.set`: a new key goes last, an existing
      one keeps its place. */
  function Appended(order: seq<string>, key: string): (r: seq<string>)
    ensures forall x :: x in r <==> x in order || x == key
    ensures Distinct(order) ==> Distinct(r)
  {
    if key in order then order else order + [key]
  }

  /** The key order after `Map.prototype.delete`: the key is gone, the others
      keep their relative order. */
  function Without(order: seq<string>, key: string): (r: seq<string>)
    ensures forall x :: x in r <==> x in order && x != key
    ensures Distinct(order) ==> Distinct(r)
  {
    if order == [] then []
    else if order[0] == key then Without(order[1..], key)
    else
      assert Distinct(order) ==> order[0] !in order[1..] && Distinct(order[1..]);
      [order[0]] + Without(order[1..], key)
  }

  /** The position of the first key, in insertion order, that the stream-start
      heuristic accepts for the stream identifier. */
  function FirstFuzzyIndex(keys: seq<string>, streamSid: string): (r: Option<nat>)
    ensures r.Some? ==> r.value < |keys| && FuzzyMatch(keys[r.value], streamSid)
    ensures r.Some? ==> forall j :: 0 <= j < r.value ==> !FuzzyMatch(keys[j], streamSid)
    ensures r.None? ==> forall j :: 0 <= j < |keys| ==> !FuzzyMatch(keys[j], streamSid)
  {
    if keys == [] then None
    else if FuzzyMatch(keys[0], streamSid) then Some(0)
    else match FirstFuzzyIndex(keys[1..], streamSid)
      case None => None
      case Some(k) => Some(k + 1)
  }

  function FirstFuzzyKey(keys: seq<string>, streamSid: string): Option<string>
  {
    match FirstFuzzyIndex(keys, streamSid)
    case None => None
    case Some(i) => Some(keys[i])
  }

  /** `activeCallsMap`: call identifier to call data, with the insertion order
      JavaScript's `Map` iterates in. */
  class CallRegistry {
    var order: seq<string>
    var entries: map<string, CallInfo>

    ghost predicate Valid()
      reads this
    {
      Distinct(order) && forall k :: k in order <==> k in entries
    }

    constructor ()
      ensures Valid() && order == [] && entries == map[]
    {
      order, entries := [], map[];
    }

    /** `activeCallsMap.get(key)`. */
    function Get(key: string): (r: Option<CallInfo>)
      reads this
      ensures r.Some? <==> key in entries
      ensures r.Some? ==> r.value == entries[key]
    {
      if key in entries then Some(entries[key]) else None
    }

    /** `activeCallsMap.set(key, info)`. */
    method Set(key: string, info: CallInfo)
      requires Valid()
      modifies this
      ensures Valid()
      ensures entries == old(entries)[key := info] && order == Appended(old(order), key)
    {
      entries := entries[key := info];
      order := Appended(order, key);
    }

    /** `activeCallsMap.delete(key)`. */
    method Delete(key: string)
      requires Valid()
      modifies this
      ensures Valid()
      ensures entries == old(entries) - {key} && order == Without(old(order), key)
    {
      entries := entries - {key};
      order := Without(order, key);
    }

    /** The `for ... of activeCallsMap.entries()` scan of the stream-start
        handler: the first key, in insertion order, that the ten-character
        heuristic accepts. */
    method FindFuzzy(streamSid: string) returns (key: Option<string>)
      requires Valid()
      ensures key == FirstFuzzyKey(order, streamSid)
      ensures key.Some? ==> key.value in entries && FuzzyMatch(key.value, streamSid)
      ensures key.None? ==> forall k :: k in entries ==> !FuzzyMatch(k, streamSid)
    {
      var i := 0;
      while i < |order|
        invariant 0 <= i <= |order|
        invariant forall j :: 0 <= j < i ==> !FuzzyMatch(order[j], streamSid)
      {
        if FuzzyMatch(order[i], streamSid) {
          return Some(order[i]);
        }
        i := i + 1;
      }
      return None;
    }
  }

  /** The status update written after a dial: 'Call Initiated' when the dial
      returned a call identifier, 'Call Failed' when it threw. */
  function DialStatus(dialed: Outcome<string>): (u: Record)
    ensures u.Keys == {StatusKey}
    ensures u[StatusKey] == CallInitiatedStatus <==> dialed.Returned?
    ensures u[StatusKey] == CallFailedStatus <==> dialed.Threw?
  {
    map[StatusKey := if dialed.Returned? then CallInitiatedStatus else CallFailedStatus]
  }

  /** The phone numbers of the contacts, in file order. */
  function Phones(contacts: Table): (r: seq<string>)
    ensures |r| == |contacts| && forall i :: 0 <= i < |contacts| ==> r[i] == Field(contacts[i], PhoneKey)
  {
    if contacts == [] then []
    else Phones(contacts[..|contacts| - 1]) + [Field(contacts[|contacts| - 1], PhoneKey)]
  }

  /** The ledger after the first `n` contacts of the queue: one status update
      per contact, in file order. */
  ghost function LedgerAfterQueue(d: Disk, contacts: Table, dial: nat -> Outcome<string>,
                                  faults: nat -> Option<Step>, n: nat): Disk
    requires n <= |contacts|
  {
    if n == 0 then d
    else StatusAfterDial(LedgerAfterQueue(d, contacts, dial, faults, n - 1), contacts[n - 1], dial(n - 1), faults(n - 1))
  }

  /** The ledger after the status update that follows one dial. */
  ghost function StatusAfterDial(d: Disk, contact: Record, dialled: Outcome<string>, fault: Option<Step>): Disk
  {
    UpdateEffect(d, Field(contact, PhoneKey), DialStatus(dialled), fault).0
  }

  /** The registry entries after the first `n` contacts: each successful dial
      registers the contact under the identifier it returned. */
  function EntriesAfterQueue(entries: map<string, CallInfo>, contacts: Table,
                             dial: nat -> Outcome<string>, n: nat): map<string, CallInfo>
    requires n <= |contacts|
  {
    if n == 0 then entries
    else
      var e := EntriesAfterQueue(entries, contacts, dial, n - 1);
      if dial(n - 1).Returned? then e[dial(n - 1).value := InfoOf(contacts[n - 1])] else e
  }

  /** The registry's key order after the first `n` contacts. */
  function OrderAfterQueue(order: seq<string>, contacts: Table, dial: nat -> Outcome<string>, n: nat): seq<string>
    requires n <= |contacts|
  {
    if n == 0 then order
    else
      var o := OrderAfterQueue(order, contacts, dial, n - 1);
      if dial(n - 1).Returned? then Appended(o, dial(n - 1).value) else o
  }

  /** The registry gains exactly the identifiers of the successful dials; a
      failed dial registers nothing. */
  lemma {:induction false} QueueRegistersSuccessfulDials(entries: map<string, CallInfo>, contacts: Table,
                                                          dial: nat -> Outcome<string>, n: nat)
    requires n <= |contacts|
    ensures EntriesAfterQueue(entries, contacts, dial, n).Keys ==
      entries.Keys + set i | 0 <= i < n && dial(i).Returned? :: dial(i).value
  {
    if n > 0 {
      QueueRegistersSuccessfulDials(entries, contacts, dial, n - 1);
      var before := set i | 0 <= i < n - 1 && dial(i).Returned? :: dial(i).value;
      var after := set i | 0 <= i < n && dial(i).Returned? :: dial(i).value;
      if dial(n - 1).Returned? {
        assert after == before + {dial(n - 1).value};
      } else {
        assert after == before;
      }
    }
  }

  /** The entry under a returned identifier holds the contact of the last dial
      that returned it. */
  lemma {:induction false} QueueEntryIsLastDial(entries: map<string, CallInfo>, contacts: Table,
                                                 dial: nat -> Outcome<string>, n: nat, i: nat)
    requires i < n <= |contacts| && dial(i).Returned?
    requires forall j :: i < j < n ==> dial(j) != dial(i)
    ensures dial(i).value in EntriesAfterQueue(entries, contacts, dial, n)
    ensures EntriesAfterQueue(entries, contacts, dial, n)[dial(i).value] == InfoOf(contacts[i])
  {
    if i < n - 1 {
      QueueEntryIsLastDial(entries, contacts, dial, n - 1, i);
    }
  }

  /** Every row has exactly the four header columns, as in a file this
      program wrote. */
  predicate Rectangular(t: Table)
  {
    forall i :: 0 <= i < |t| ==> t[i].Keys == HeaderSet
  }

  /** One status update keeps a rectangular file rectangular, keeps its rows in
      place, and changes nothing but the Status column. */
  lemma StatusUpdateTouchesOnlyStatus(d: Disk, phone: string, status: string, fault: Option<Step>)
    requires d.main.Some? && Rectangular(d.main.value)
    ensures var m := UpdateEffect(d, phone, map[StatusKey := status], fault).0.main;
      && m.Some? && Rectangular(m.value) && |m.value| == |d.main.value|
      && forall i, k :: 0 <= i < |m.value| && k in HeaderSet && k != StatusKey ==> m.value[i][k] == d.main.value[i][k]
  {
    UpdateOldOrNew(d, phone, map[StatusKey := status], fault);
  }

  /** The queue's ledger writes keep a rectangular file's rows in place and
      change nothing but their Status column. */
  lemma {:induction false} QueueTouchesOnlyStatus(d: Disk, contacts: Table, dial: nat -> Outcome<string>,
                                                   faults: nat -> Option<Step>, n: nat)
    requires n <= |contacts| && d.main.Some? && Rectangular(d.main.value)
    ensures var m := LedgerAfterQueue(d, contacts, dial, faults, n).main;
      && m.Some? && Rectangular(m.value) && |m.value| == |d.main.value|
      && forall i, k :: 0 <= i < |m.value| && k in HeaderSet && k != StatusKey ==> m.value[i][k] == d.main.value[i][k]
  {
    if n > 0 {
      QueueTouchesOnlyStatus(d, contacts, dial, faults, n - 1);
      var prev := LedgerAfterQueue(d, contacts, dial, faults, n - 1);
      StatusUpdateTouchesOnlyStatus(prev, Field(contacts[n - 1], PhoneKey),
                                    DialStatus(dial(n - 1))[StatusKey], faults(n - 1));
      assert DialStatus(dial(n - 1)) == map[StatusKey := DialStatus(dial(n - 1))[StatusKey]];
    }
  }

  /** One step of the queue, after the dial: register a successful call, then
      write its status. */
  method CallOne(csv: CsvService, registry: CallRegistry, contact: Record,
                 callSid: Outcome<string>, fault: Option<Step>)
    requires registry.Valid()
    modifies csv, registry
    ensures registry.Valid()
    ensures registry.entries ==
      if callSid.Returned? then old(registry.entries)[callSid.value := InfoOf(contact)] else old(registry.entries)
    ensures registry.order ==
      if callSid.Returned? then Appended(old(registry.order), callSid.value) else old(registry.order)
    ensures csv.State() == StatusAfterDial(old(csv.State()), contact, callSid, fault)
  {
    if callSid.Returned? {
      registry.Set(callSid.value, InfoOf(contact));
    }
    var _ := csv.UpdateContact(Field(contact, PhoneKey), DialStatus(callSid), fault);
  }

  /** `processCallQueue`: read the contacts once, then dial them one after the
      other in file order (each wait of the pacing timer is one loop step).
      A successful dial registers the contact under the returned identifier
      and marks it 'Call Initiated'; a thrown dial marks it 'Call Failed'.
      Returns the numbers dialled, in order. A failing read ends the queue
      before any dial. */
  method ProcessCallQueue(csv: CsvService, registry: CallRegistry, readThrows: bool,
                          dial: nat -> Outcome<string>, faults: nat -> Option<Step>)
    returns (dialled: seq<string>)
    requires registry.Valid()
    modifies csv, registry
    ensures registry.Valid()
    ensures old(csv.file).None? || readThrows ==> dialled == [] && unchanged(csv) && unchanged(registry)
    ensures old(csv.file).Some? && !readThrows ==>
      var contacts := old(csv.file).value;
      && dialled == Phones(contacts)
      && registry.entries == EntriesAfterQueue(old(registry.entries), contacts, dial, |contacts|)
      && registry.order == OrderAfterQueue(old(registry.order), contacts, dial, |contacts|)
      && csv.State() == LedgerAfterQueue(old(csv.State()), contacts, dial, faults, |contacts|)
  {
    var read := csv.ReadContacts(readThrows);
    if read.Threw? {
      return [];
    }
    var contacts := read.value;
    ghost var d0, e0, o0 := csv.State(), registry.entries, registry.order;
    dialled := [];
    var index := 0;
    while index < |contacts|
      invariant 0 <= index <= |contacts|
      invariant registry.Valid()
      invariant dialled == Phones(contacts[..index])
      invariant registry.entries == EntriesAfterQueue(e0, contacts, dial, index)
      invariant registry.order == OrderAfterQueue(o0, contacts, dial, index)
      invariant csv.State() == LedgerAfterQueue(d0, contacts, dial, faults, index)
    {
      var contact := contacts[index];
      assert contacts[..index + 1][..index] == contacts[..index];
      dialled := dialled + [Field(contact, PhoneKey)];
      CallOne(csv, registry, contact, dial(index), faults(index));
      index := index + 1;
    }
    assert contacts[..index] == contacts;
  }

  /** The final status written when a call completes: 'Call Completed - Email
      Collected' exactly when the ledger's current status is 'Email Collected',
      'Call Completed - Not Interested' otherwise (also when it could not be read). */
  function FinalStatus(current: Option<string>): (s: string)
    ensures s == CompletedWithEmail <==> current == Some(EmailCollectedStatus)
    ensures s == CompletedNotInterested <==> current != Some(EmailCollectedStatus)
  {
    if current == Some(EmailCollectedStatus) then CompletedWithEmail else CompletedNotInterested
  }

  /** The `/webhook/status` handler. For a registered call, 'completed' writes
      the final status and 'failed' writes 'Call Failed', and either removes the
      entry; any other status, or an unknown call identifier, changes nothing. */
  method OnStatusWebhook(csv: CsvService, registry: CallRegistry, callSid: string, callStatus: string,
                         statusReadThrows: bool, fault: Option<Step>)
    requires registry.Valid()
    modifies csv, registry
    ensures registry.Valid()
    ensures callSid !in old(registry.entries) || (callStatus != "completed" && callStatus != "failed") ==>
      unchanged(csv) && unchanged(registry)
    ensures callSid in old(registry.entries) && (callStatus == "completed" || callStatus == "failed") ==>
      var phone := old(registry.entries)[callSid].phoneNumber;
      var status := if callStatus == "completed"
        then FinalStatus(ContactStatus(old(csv.file), phone, statusReadThrows))
        else CallFailedStatus;
      && csv.State() == UpdateEffect(old(csv.State()), phone, map[StatusKey := status], fault).0
      && registry.entries == old(registry.entries) - {callSid}
      && registry.order == Without(old(registry.order), callSid)
  {
    var callData := registry.Get(callSid);
    if callData.None? {
      return;
    }
    var phone := callData.value.phoneNumber;
    if callStatus == "completed" {
      var currentStatus := csv.GetContactStatus(phone, statusReadThrows);
      var _ := csv.UpdateContact(phone, map[StatusKey := FinalStatus(currentStatus)], fault);
      registry.Delete(callSid);
    } else if callStatus == "failed" {
      var _ := csv.UpdateContact(phone, map[StatusKey := CallFailedStatus], fault);
      registry.Delete(callSid);
    }
  }
}
