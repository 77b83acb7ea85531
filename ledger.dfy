/** The contact ledger (src/services/csv.service.js): a flat file of contact
    records keyed by the 'Phone Number' column, and its write protocol of
    backup, merge, rewrite with fixed columns, read-back check, and removal of
    the backup or restore from it.

    A file is modelled by the table its parser returns, one map from column
    name to value per row. The CSV library is not modelled: writing a table
    with the fixed columns and parsing it again gives back each record
    projected onto those columns (see `Project`). */
module Ledger {
  import opened Common

  type Record = map<string, string>
  type Table = seq<Record>

  const NameKey := "Name"
  const PhoneKey := "Phone Number"
  const EmailKey := "Email"
  const StatusKey := "Status"

  /** The columns every write uses, in file order. */
  const Headers: seq<string> := [NameKey, PhoneKey, EmailKey, StatusKey]

  /** The same columns as a set. */
  const HeaderSet: set<string> := {NameKey, PhoneKey, EmailKey, StatusKey}

  /** `record['Phone Number'] === phone`; a record without that column never matches. */
  predicate HasPhone(r: Record, phone: string)
  {
    PhoneKey in r && r[PhoneKey] == phone
  }

  predicate AnyHasPhone(t: Table, phone: string)
  {
    exists i :: 0 <= i < |t| && HasPhone(t[i], phone)
  }

  /** Every row has a 'Phone Number' column, as every row of a file whose header
      row names that column does. */
  predicate Keyed(t: Table)
  {
    forall i :: 0 <= i < |t| ==> PhoneKey in t[i]
  }

  /** `record[key]`, `None` for an absent column. */
  function Lookup(r: Record, key: string): Option<string>
  {
    if key in r then Some(r[key]) else None
  }

  /** One record written with the fixed columns and parsed again: exactly the
      four header columns, an absent one read back as the empty string, and
      every other key of the record lost. */
  function Project(r: Record): (p: Record)
    ensures p.Keys == HeaderSet
    ensures forall k :: k in HeaderSet && k in r ==> p[k] == r[k]
    ensures forall k :: k in HeaderSet && k !in r ==> p[k] == ""
  {
    map k | k in HeaderSet :: if k in r then r[k] else ""
  }

  /** A record that already has exactly the header columns survives the round
      trip unchanged. */
  lemma ProjectKeepsRectangularRecord(r: Record)
    requires r.Keys == HeaderSet
    ensures Project(r) == r
  {
  }

  /** A whole table written with the fixed columns and parsed again. */
  function RoundTrip(t: Table): (r: Table)
    ensures |r| == |t| && forall i :: 0 <= i < |t| ==> r[i] == Project(t[i])
  {
    seq(|t|, i requires 0 <= i < |t| => Project(t[i]))
  }

  /** The position of the first record with the given phone number: what
      `Array.prototype.find` returns. */
  function FirstIndex(t: Table, phone: string): (r: Option<nat>)
    ensures r.Some? ==> r.value < |t| && HasPhone(t[r.value], phone)
    ensures r.Some? ==> forall j :: 0 <= j < r.value ==> !HasPhone(t[j], phone)
  {
    if t == [] then None
    else if HasPhone(t[0], phone) then Some(0)
    else match FirstIndex(t[1..], phone)
      case None => None
      case Some(k) => Some(k + 1)
  }

  /** `contacts.find(c => c['Phone Number'] === phone)`. */
  function Find(t: Table, phone: string): (r: Option<Record>)
    ensures r.Some? ==> FirstIndex(t, phone).Some? && r.value == t[FirstIndex(t, phone).value]
    ensures r.None? ==> FirstIndex(t, phone).None?
  {
    match FirstIndex(t, phone)
    case None => None
    case Some(i) => Some(t[i])
  }

  /** The search finds nothing exactly when no record has the phone number. */
  lemma {:induction false} FindsAnyMatch(t: Table, phone: string)
    ensures FirstIndex(t, phone).None? <==> !AnyHasPhone(t, phone)
    ensures Find(t, phone).Some? <==> AnyHasPhone(t, phone)
  {
    if t != [] && !HasPhone(t[0], phone) {
      FindsAnyMatch(t[1..], phone);
      if AnyHasPhone(t, phone) {
        var i :| 0 <= i < |t| && HasPhone(t[i], phone);
        assert t[1..][i - 1] == t[i];
      }
    }
  }

  /** Two tables whose rows agree, row by row, on having the phone number have
      their first match at the same position. */
  lemma {:induction false} FirstIndexPointwise(a: Table, b: Table, phone: string)
    requires |a| == |b|
    requires forall i :: 0 <= i < |a| ==> (HasPhone(a[i], phone) <==> HasPhone(b[i], phone))
    ensures FirstIndex(a, phone) == FirstIndex(b, phone)
  {
    if a != [] && !HasPhone(a[0], phone) {
      assert !HasPhone(b[0], phone);
      forall i | 0 <= i < |a[1..]|
        ensures HasPhone(a[1..][i], phone) <==> HasPhone(b[1..][i], phone)
      {
        assert a[1..][i] == a[i + 1] && b[1..][i] == b[i + 1];
      }
      FirstIndexPointwise(a[1..], b[1..], phone);
    }
  }

  /** `{...contact, ...updates}` applied to every record with the phone number;
      the other records are kept as they are. */
  function Merged(t: Table, phone: string, updates: Record): Table
  {
    seq(|t|, i requires 0 <= i < |t| => if HasPhone(t[i], phone) then t[i] + updates else t[i])
  }

  /** Merging touches nothing but the matching records, keeps the order, and in
      a matching record sets every updated column and keeps every other one. */
  lemma MergeScope(t: Table, phone: string, updates: Record, i: nat)
    requires i < |t|
    ensures |Merged(t, phone, updates)| == |t|
    ensures !HasPhone(t[i], phone) ==> Merged(t, phone, updates)[i] == t[i]
    ensures HasPhone(t[i], phone) ==>
      && Merged(t, phone, updates)[i].Keys == t[i].Keys + updates.Keys
      && (forall k :: k in updates ==> Merged(t, phone, updates)[i][k] == updates[k])
      && (forall k :: k in t[i] && k !in updates ==> Merged(t, phone, updates)[i][k] == t[i][k])
  {
  }

  /** The `contacts.map` pass of an update: merge `updates` into every record
      with the phone number, and raise the `updated` flag when one is met. */
  method MapMatching(contacts: Table, phone: string, updates: Record)
    returns (updatedContacts: Table, updated: bool)
    ensures updatedContacts == Merged(contacts, phone, updates)
    ensures updated <==> AnyHasPhone(contacts, phone)
  {
    updatedContacts := [];
    updated := false;
    var i := 0;
    while i < |contacts|
      invariant 0 <= i <= |contacts|
      invariant |updatedContacts| == i
      invariant forall j :: 0 <= j < i ==>
        updatedContacts[j] == if HasPhone(contacts[j], phone) then contacts[j] + updates else contacts[j]
      invariant updated <==> exists j :: 0 <= j < i && HasPhone(contacts[j], phone)
    {
      var contact := contacts[i];
      if PhoneKey in contact && contact[PhoneKey] == phone {
        updated := true;
        updatedContacts := updatedContacts + [contact + updates];
      } else {
        updatedContacts := updatedContacts + [contact];
      }
      i := i + 1;
    }
  }

  /** The read-back check: the record found has every updated column with the
      updated value. */
  predicate AllApplied(found: Option<Record>, updates: Record)
  {
    found.Some? && forall k :: k in updates ==> k in found.value && found.value[k] == updates[k]
  }

  /** The updates leave the phone number of a matching record alone (they do
      not name the column, or set it to the same number). */
  predicate KeepsPhone(updates: Record, phone: string)
  {
    PhoneKey in updates ==> updates[PhoneKey] == phone
  }

  /** The rewritten table has its first match where the original had it, and
      there it holds the merged record after the round trip. */
  lemma RewriteKeepsFirstMatch(t: Table, phone: string, updates: Record)
    requires Keyed(t) && KeepsPhone(updates, phone)
    ensures FirstIndex(RoundTrip(Merged(t, phone, updates)), phone) == FirstIndex(t, phone)
  {
    var w := RoundTrip(Merged(t, phone, updates));
    forall i | 0 <= i < |t|
      ensures HasPhone(t[i], phone) <==> HasPhone(w[i], phone)
    {
      assert PhoneKey in HeaderSet;
    }
    FirstIndexPointwise(t, w, phone);
  }

  /** What an update writes: the merged table after the round trip. */
  function Rewritten(t: Table, phone: string, updates: Record): Table
  {
    RoundTrip(Merged(t, phone, updates))
  }

  /** The read-back check of an update passes on what it wrote. */
  predicate ReadBackPasses(t: Table, phone: string, updates: Record)
  {
    AllApplied(Find(Rewritten(t, phone, updates), phone), updates)
  }

  /** The file-system state the ledger works on: the contacts file and its
      `.backup` copy, each absent or holding a table. */
  datatype Disk = Disk(main: Option<Table>, backup: Option<Table>)

  /** The file-system calls of an update, in order. */
  datatype Step = CopyToBackup | ReadMain | WriteMain | ReadBack | RemoveBackup | RestoreMain

  /** The effect of `updateContact(phone, updates)` on the disk, and what it
      returns, when the file-system call named by `fault` (if it is reached)
      throws. A missing contacts file makes the first copy throw. */
  ghost function UpdateEffect(d: Disk, phone: string, updates: Record, fault: Option<Step>): (Disk, bool)
  {
    if d.main.None? || fault == Some(CopyToBackup) then (d, false)
    else
      var t := d.main.value;
      var saved := Disk(d.main, d.main);
      if fault == Some(ReadMain) || !AnyHasPhone(t, phone) || fault == Some(WriteMain) then (saved, false)
      else
        var written := Rewritten(t, phone, updates);
        var rewritten := Disk(Some(written), d.main);
        if fault == Some(ReadBack) then (rewritten, false)
        else if ReadBackPasses(t, phone, updates) then
          if fault == Some(RemoveBackup) then (rewritten, false)
          else (Disk(Some(written), None), true)
        else if fault == Some(RestoreMain) then (rewritten, false)
        else (saved, false)
  }

  /** Whatever happens, an update leaves the contacts file holding either the
      old table or the rewritten one, never anything else. */
  lemma UpdateOldOrNew(d: Disk, phone: string, updates: Record, fault: Option<Step>)
    ensures var m := UpdateEffect(d, phone, updates, fault).0.main;
      m == d.main || (d.main.Some? && m == Some(Rewritten(d.main.value, phone, updates)))
  {
  }

  /** The rewrite keeps every row's phone column, and, when the updates keep the
      number, a record with the number. */
  lemma RewrittenKeyed(t: Table, phone: string, updates: Record)
    ensures Keyed(Rewritten(t, phone, updates))
    ensures Keyed(t) && KeepsPhone(updates, phone) && AnyHasPhone(t, phone) ==>
      AnyHasPhone(Rewritten(t, phone, updates), phone)
  {
    assert PhoneKey in HeaderSet;
    if Keyed(t) && KeepsPhone(updates, phone) && AnyHasPhone(t, phone) {
      RewriteKeepsFirstMatch(t, phone, updates);
      FindsAnyMatch(t, phone);
      FindsAnyMatch(Rewritten(t, phone, updates), phone);
    }
  }

  /** No record with the phone number: the update reports failure and the
      contacts file is never rewritten (its backup copy is left behind). */
  lemma UpdateNotFound(d: Disk, phone: string, updates: Record, fault: Option<Step>)
    requires d.main.Some? && !AnyHasPhone(d.main.value, phone)
    ensures UpdateEffect(d, phone, updates, fault).0.main == d.main
    ensures !UpdateEffect(d, phone, updates, fault).1
    ensures fault != Some(CopyToBackup) ==> UpdateEffect(d, phone, updates, fault).0.backup == d.main
  {
  }

  /** The read-back check on a merged record after the round trip passes
      exactly when every updated column is a header column. */
  lemma ProjectShowsUpdates(r: Record, updates: Record)
    ensures AllApplied(Some(Project(r + updates)), updates) <==> updates.Keys <= HeaderSet
  {
    if !(updates.Keys <= HeaderSet) {
      var k :| k in updates && k !in HeaderSet;
      assert k !in Project(r + updates);
    }
  }

  /** The read-back check of an update of a file whose rows all have a phone
      number, when some record has the number: it passes exactly when the
      updates keep that number and name only header columns. */
  lemma ReadBackIff(t: Table, phone: string, updates: Record)
    requires Keyed(t) && AnyHasPhone(t, phone)
    ensures ReadBackPasses(t, phone, updates) <==> KeepsPhone(updates, phone) && updates.Keys <= HeaderSet
  {
    var w := RoundTrip(Merged(t, phone, updates));
    FindsAnyMatch(t, phone);
    if KeepsPhone(updates, phone) {
      RewriteKeepsFirstMatch(t, phone, updates);
      var i := FirstIndex(t, phone).value;
      assert Find(w, phone) == Some(Project(t[i] + updates));
      ProjectShowsUpdates(t[i], updates);
    } else {
      forall j | 0 <= j < |w| ensures !HasPhone(w[j], phone) {
        assert PhoneKey in HeaderSet;
      }
      FindsAnyMatch(w, phone);
    }
  }

  /** With no file-system error, an update of an existing file reports success
      exactly when a record has the number and the read-back check passes. */
  lemma UpdateResultWithoutFault(d: Disk, phone: string, updates: Record)
    requires d.main.Some?
    ensures UpdateEffect(d, phone, updates, None).1 <==>
      AnyHasPhone(d.main.value, phone) && ReadBackPasses(d.main.value, phone, updates)
  {
    var t := d.main.value;
    if !AnyHasPhone(t, phone) {
      UpdateNotFound(d, phone, updates, None);
    } else if ReadBackPasses(t, phone, updates) {
      UpdateCommits(d, phone, updates);
    } else {
      UpdateRollsBack(d, phone, updates, None);
    }
  }

  /** A passing read-back check with no file-system error commits the update:
      the file holds the rewritten table, the backup is deleted, and the
      result is true. */
  lemma UpdateCommits(d: Disk, phone: string, updates: Record)
    requires d.main.Some? && AnyHasPhone(d.main.value, phone)
    requires ReadBackPasses(d.main.value, phone, updates)
    ensures UpdateEffect(d, phone, updates, None) == (Disk(Some(Rewritten(d.main.value, phone, updates)), None), true)
  {
  }

  /** With no file-system error, an update of a file whose rows all have a
      phone number succeeds exactly when a record has the number, the updates
      keep that number, and every updated column is one of the four header
      columns (any other is lost by the rewrite and fails the read-back). */
  lemma UpdateSucceedsIff(d: Disk, phone: string, updates: Record)
    requires d.main.Some? && Keyed(d.main.value)
    ensures UpdateEffect(d, phone, updates, None).1 <==>
      AnyHasPhone(d.main.value, phone) && KeepsPhone(updates, phone) && updates.Keys <= HeaderSet
  {
    UpdateResultWithoutFault(d, phone, updates);
    if AnyHasPhone(d.main.value, phone) {
      ReadBackIff(d.main.value, phone, updates);
    }
  }

  /** A successful update met no failing file-system call (a failure of the
      restoring copy is never reached on that path), ran on a file holding
      a record with the phone number, passed its read-back check, and leaves
      the rewritten table in the file and no backup. */
  lemma UpdateSuccessMeans(d: Disk, phone: string, updates: Record, fault: Option<Step>)
    requires UpdateEffect(d, phone, updates, fault).1
    ensures fault.Some? ==> fault.value == RestoreMain
    ensures d.main.Some? && AnyHasPhone(d.main.value, phone)
    ensures ReadBackPasses(d.main.value, phone, updates)
    ensures UpdateEffect(d, phone, updates, fault).0 == Disk(Some(Rewritten(d.main.value, phone, updates)), None)
  {
    match fault
    case None =>
    case Some(step) =>
  }

  /** What an update writes holds every record, in the same order, written with
      the fixed columns: a matching record merged with the updates, any other
      record as it was. For rows that have exactly the header columns, another
      record comes back unchanged, and after a passing read-back check a
      matching record gets precisely the updated values. */
  lemma RewrittenContents(t: Table, phone: string, updates: Record, i: nat)
    requires i < |t|
    ensures var w := Rewritten(t, phone, updates);
      && |w| == |t|
      && (!HasPhone(t[i], phone) ==> w[i] == Project(t[i]))
      && (HasPhone(t[i], phone) ==> w[i] == Project(t[i] + updates))
      && (t[i].Keys == HeaderSet && !HasPhone(t[i], phone) ==> w[i] == t[i])
      && (t[i].Keys == HeaderSet && HasPhone(t[i], phone) && Keyed(t) && ReadBackPasses(t, phone, updates) ==>
            w[i] == t[i] + updates)
  {
    var w := Rewritten(t, phone, updates);
    if t[i].Keys == HeaderSet && HasPhone(t[i], phone) && Keyed(t) && ReadBackPasses(t, phone, updates) {
      ReadBackIff(t, phone, updates);
      var merged := t[i] + updates;
      assert merged.Keys == HeaderSet;
      ProjectKeepsRectangularRecord(merged);
      assert w[i] == Project(merged);
    }
  }

  /** A failed read-back check restores the contacts file from the backup to
      exactly what it was, keeps the backup, and reports failure, unless the
      restoring copy itself throws. */
  lemma UpdateRollsBack(d: Disk, phone: string, updates: Record, fault: Option<Step>)
    requires d.main.Some? && AnyHasPhone(d.main.value, phone)
    requires fault == None || fault == Some(RemoveBackup)
    requires !ReadBackPasses(d.main.value, phone, updates)
    ensures UpdateEffect(d, phone, updates, fault) == (Disk(d.main, d.main), false)
  {
  }

  /** In particular an updated column outside the four headers always rolls
      back a file whose rows all have a phone number. */
  lemma UnknownColumnRollsBack(d: Disk, phone: string, updates: Record, key: string)
    requires d.main.Some? && Keyed(d.main.value) && AnyHasPhone(d.main.value, phone)
    requires key in updates && key !in HeaderSet
    ensures UpdateEffect(d, phone, updates, None) == (Disk(d.main, d.main), false)
  {
    UpdateSucceedsIff(d, phone, updates);
  }

  /** An exception after the rewrite is only logged: the update reports
      failure, the file keeps the new contents, and nothing is restored. */
  lemma UpdateExceptionAfterWrite(d: Disk, phone: string, updates: Record, fault: Option<Step>)
    requires d.main.Some? && AnyHasPhone(d.main.value, phone)
    requires fault == Some(ReadBack) || fault == Some(RemoveBackup) || fault == Some(RestoreMain)
    requires fault == Some(RemoveBackup) ==> ReadBackPasses(d.main.value, phone, updates)
    requires fault == Some(RestoreMain) ==> !ReadBackPasses(d.main.value, phone, updates)
    ensures UpdateEffect(d, phone, updates, fault) ==
      (Disk(Some(Rewritten(d.main.value, phone, updates)), d.main), false)
  {
  }

  /** What `initializeCSV` writes when there is no file: a header row and the
      single record `{}`, which reads back as one row of empty fields. */
  function InitialTable(): (t: Table)
    ensures |t| == 1 && t[0].Keys == HeaderSet
    ensures forall k :: k in t[0] ==> t[0][k] == ""
  {
    [Project(map[])]
  }

  /** What `getContactStatus` returns for a file state. */
  function ContactStatus(file: Option<Table>, phone: string, readThrows: bool): Option<string>
  {
    if file.None? || readThrows then None
    else match Find(file.value, phone)
      case None => None
      case Some(contact) => Lookup(contact, StatusKey)
  }

  /** The contacts file and its backup, as the singleton `CSVService` sees them. */
  class CsvService {
    var file: Option<Table>
    var backup: Option<Table>

    function State(): Disk
      reads this
    {
      Disk(file, backup)
    }

    /** The constructor finds the disk as it is and runs `initializeCSV`. */
    constructor (onDisk: Disk, writeThrows: bool)
      ensures backup == onDisk.backup
      ensures onDisk.main.Some? ==> file == onDisk.main
      ensures onDisk.main.None? ==> file == if writeThrows then None else Some(InitialTable())
    {
      file, backup := onDisk.main, onDisk.backup;
      new;
      InitializeCsv(writeThrows);
    }

    /** When no file exists, writes `InitialTable()`: the header row and one
        row of empty fields. An existing file is never touched (its
        writability is only logged). A throwing write is caught and logged. */
    method InitializeCsv(writeThrows: bool)
      modifies this`file
      ensures old(file).Some? ==> file == old(file)
      ensures old(file).None? ==> file == if writeThrows then None else Some(InitialTable())
    {
      if file.None? && !writeThrows {
        file := Some(InitialTable());
      }
    }

    /** `readContacts`: the parsed file, or the error rethrown (a missing file
        or a failing read). */
    method ReadContacts(readThrows: bool) returns (r: Outcome<Table>)
      ensures r.Returned? <==> file.Some? && !readThrows
      ensures r.Returned? ==> r.value == file.value
    {
      if file.None? || readThrows {
        return Threw;
      }
      return Returned(file.value);
    }

    /** `getContactStatus`: the Status of the first record with the phone
        number; `None` when there is none, when it has no Status column, or when
        reading fails. */
    method GetContactStatus(phone: string, readThrows: bool) returns (status: Option<string>)
      ensures file.None? || readThrows || !AnyHasPhone(file.value, phone) ==> status == None
      ensures status.Some? ==>
        exists i :: 0 <= i < |file.value| && HasPhone(file.value[i], phone) &&
          (forall j :: 0 <= j < i ==> !HasPhone(file.value[j], phone)) &&
          StatusKey in file.value[i] && status.value == file.value[i][StatusKey]
      ensures status == ContactStatus(file, phone, readThrows)
    {
      var contacts := ReadContacts(readThrows);
      if contacts.Threw? {
        return None;
      }
      var contact := Find(contacts.value, phone);
      if contact.None? {
        return None;
      }
      status := Lookup(contact.value, StatusKey);
    }

    /** `updateContact(phone, updates)`: backup, read, merge, rewrite with the
        fixed columns, read back and check, then remove the backup or restore
        from it. Every exception is caught and reported as `false`. */
    method UpdateContact(phone: string, updates: Record, fault: Option<Step>) returns (ok: bool)
      modifies this
      ensures (State(), ok) == UpdateEffect(old(State()), phone, updates, fault)
    {
      if file.None? || fault == Some(CopyToBackup) {
        return false;
      }
      backup := file;
      if fault == Some(ReadMain) {
        return false;
      }
      var contacts := file.value;
      var updatedContacts, updated := MapMatching(contacts, phone, updates);
      if !updated || fault == Some(WriteMain) {
        return false;
      }
      file := Some(RoundTrip(updatedContacts));
      if fault == Some(ReadBack) {
        return false;
      }
      var verifiedContact := Find(file.value, phone);
      if AllApplied(verifiedContact, updates) {
        if fault == Some(RemoveBackup) {
          return false;
        }
        backup := None;
        return true;
      }
      if fault == Some(RestoreMain) {
        return false;
      }
      file := backup;
      return false;
    }
  }
}
