/** Saving a confirmed email address (src/index.js): the direct rewrite
    `directSaveEmailToCSV`, which keeps no backup, and the two-stage save of the
    `collect_email` branch, which first goes through the ledger's protected
    update and falls back to the direct rewrite when a re-read does not show the
    address. */
module EmailSave {
  import opened Common
  import opened Ledger

  const EmailCollectedStatus := "Email Collected"

  /** The columns both save paths write: the address and the status
      'Email Collected'. */
  function EmailUpdates(email: string): (u: Record)
    ensures u.Keys <= HeaderSet && PhoneKey !in u
    ensures EmailKey in u && u[EmailKey] == email
    ensures StatusKey in u && u[StatusKey] == EmailCollectedStatus
  {
    map[EmailKey := email, StatusKey := EmailCollectedStatus]
  }

  /** `record && record.Email === email`. */
  predicate EmailShown(found: Option<Record>, email: string)
  {
    found.Some? && EmailKey in found.value && found.value[EmailKey] == email
  }

  /** The effect of `directSaveEmailToCSV(phone, email)` on the disk, and what
      it returns, when the file-system call named by `fault` (if reached)
      throws. The backup copy is never read or written. */
  ghost function DirectSaveEffect(d: Disk, phone: string, email: string, fault: Option<Step>): (Disk, bool)
  {
    if d.main.None? || fault == Some(ReadMain) || !AnyHasPhone(d.main.value, phone) || fault == Some(WriteMain) then
      (d, false)
    else
      var written := Rewritten(d.main.value, phone, EmailUpdates(email));
      var rewritten := Disk(Some(written), d.backup);
      if fault == Some(ReadBack) then (rewritten, false)
      else (rewritten, EmailShown(Find(written, phone), email))
  }

  /** No record with the phone number: the direct save reports failure and
      writes nothing. */
  lemma DirectSaveNotFound(d: Disk, phone: string, email: string, fault: Option<Step>)
    requires d.main.Some? && !AnyHasPhone(d.main.value, phone)
    ensures DirectSaveEffect(d, phone, email, fault) == (d, false)
  {
  }

  /** The direct save has nothing to roll back to: it never touches the backup,
      and once it has rewritten the file the rewrite stays, whether or not its
      check passes. */
  lemma DirectSaveNeverRollsBack(d: Disk, phone: string, email: string, fault: Option<Step>)
    ensures DirectSaveEffect(d, phone, email, fault).0.backup == d.backup
    ensures
      (d.main.Some? && AnyHasPhone(d.main.value, phone) && fault != Some(ReadMain) && fault != Some(WriteMain)) ==>
        DirectSaveEffect(d, phone, email, fault).0.main == Some(Rewritten(d.main.value, phone, EmailUpdates(email)))
  {
  }

  /** On a file whose rows all have a phone number, the direct save succeeds
      whenever a record has the number and no file-system call fails: its
      check cannot fail, and the first such record then holds the address and
      the status 'Email Collected'. */
  lemma DirectSaveSucceeds(d: Disk, phone: string, email: string, fault: Option<Step>)
    requires d.main.Some? && Keyed(d.main.value) && AnyHasPhone(d.main.value, phone)
    requires fault != Some(ReadMain) && fault != Some(WriteMain) && fault != Some(ReadBack)
    ensures DirectSaveEffect(d, phone, email, fault).1
    ensures var m := DirectSaveEffect(d, phone, email, fault).0.main;
      m.Some? && Find(m.value, phone).Some? &&
      Lookup(Find(m.value, phone).value, EmailKey) == Some(email) &&
      Lookup(Find(m.value, phone).value, StatusKey) == Some(EmailCollectedStatus)
  {
    var t := d.main.value;
    var u := EmailUpdates(email);
    FindsAnyMatch(t, phone);
    RewriteKeepsFirstMatch(t, phone, u);
    var i := FirstIndex(t, phone).value;
    var w := Rewritten(t, phone, u);
    assert Find(w, phone) == Some(Project(t[i] + u));
  }

  /** `directSaveEmailToCSV`: read, set Email and Status on every record with
      the phone number, rewrite with the fixed columns, and read back the first
      such record. Every exception is caught and reported as `false`. */
  method DirectSaveEmailToCsv(csv: CsvService, phone: string, email: string, fault: Option<Step>)
    returns (ok: bool)
    modifies csv`file
    ensures (csv.State(), ok) == DirectSaveEffect(old(csv.State()), phone, email, fault)
  {
    if csv.file.None? || fault == Some(ReadMain) {
      return false;
    }
    var records := csv.file.value;
    var updatedRecords, updated := MapMatching(records, phone, EmailUpdates(email));
    if !updated || fault == Some(WriteMain) {
      return false;
    }
    csv.file := Some(RoundTrip(updatedRecords));
    if fault == Some(ReadBack) {
      return false;
    }
    var verifiedRecord := Find(csv.file.value, phone);
    ok := EmailShown(verifiedRecord, email);
  }

  /** Which file-system calls throw during one save: the step of the protected
      update, the re-read that checks it, and the step of the direct save. */
  datatype SaveFaults = SaveFaults(primary: Option<Step>, readBackThrows: bool, direct: Option<Step>)

  /** The effect of the two-stage save of the `collect_email` branch: the
      protected update (its result is ignored), a re-read of the contacts, and
      the direct save only when the re-read fails or does not show the address
      on the first record with the phone number. */
  ghost function SaveEmailEffect(d: Disk, phone: string, email: string, f: SaveFaults): (Disk, bool)
  {
    var afterUpdate := UpdateEffect(d, phone, EmailUpdates(email), f.primary).0;
    if !f.readBackThrows && afterUpdate.main.Some? && EmailShown(Find(afterUpdate.main.value, phone), email) then
      (afterUpdate, true)
    else
      DirectSaveEffect(afterUpdate, phone, email, f.direct)
  }

  /** A save reported as successful is backed by the file: its first record with
      the phone number holds the address. */
  lemma SavedEmailIsShown(d: Disk, phone: string, email: string, f: SaveFaults)
    requires SaveEmailEffect(d, phone, email, f).1
    ensures var m := SaveEmailEffect(d, phone, email, f).0.main;
      m.Some? && EmailShown(Find(m.value, phone), email)
  {
  }

  /** No record with the phone number: both stages fail and the contacts file
      is left as it was. */
  lemma SaveEmailNotFound(d: Disk, phone: string, email: string, f: SaveFaults)
    requires d.main.Some? && !AnyHasPhone(d.main.value, phone)
    ensures SaveEmailEffect(d, phone, email, f) == (UpdateEffect(d, phone, EmailUpdates(email), f.primary).0, false)
    ensures SaveEmailEffect(d, phone, email, f).0.main == d.main
  {
    UpdateNotFound(d, phone, EmailUpdates(email), f.primary);
    DirectSaveNotFound(UpdateEffect(d, phone, EmailUpdates(email), f.primary).0, phone, email, f.direct);
  }

  /** With a record for the number and no failing file-system call, the first
      stage does the save, the direct save never runs, the backup is removed,
      and the record holds the address and the status 'Email Collected'. */
  lemma SaveEmailFirstStage(d: Disk, phone: string, email: string)
    requires d.main.Some? && Keyed(d.main.value) && AnyHasPhone(d.main.value, phone)
    ensures SaveEmailEffect(d, phone, email, SaveFaults(None, false, None)) ==
      (UpdateEffect(d, phone, EmailUpdates(email), None).0, true)
    ensures var m := SaveEmailEffect(d, phone, email, SaveFaults(None, false, None)).0;
      m.backup.None? && m.main.Some? && Find(m.main.value, phone).Some? &&
      Lookup(Find(m.main.value, phone).value, EmailKey) == Some(email) &&
      Lookup(Find(m.main.value, phone).value, StatusKey) == Some(EmailCollectedStatus)
  {
    var t := d.main.value;
    var u := EmailUpdates(email);
    UpdateSucceedsIff(d, phone, u);
    UpdateSuccessMeans(d, phone, u, None);
    RewriteKeepsFirstMatch(t, phone, u);
    var i := FirstIndex(t, phone).value;
    var w := Rewritten(t, phone, u);
    var rec := Project(t[i] + u);
    assert Find(w, phone) == Some(rec);
    assert rec[EmailKey] == email && rec[StatusKey] == EmailCollectedStatus;
    assert EmailShown(Find(w, phone), email);
  }

  /** Whatever the first stage does, a direct save that meets no failing
      file-system call completes the save of a record that exists: a save
      fails only when no record has the number or the direct stage's own file
      calls fail. */
  lemma SaveEmailFallbackRecovers(d: Disk, phone: string, email: string, f: SaveFaults)
    requires d.main.Some? && Keyed(d.main.value) && AnyHasPhone(d.main.value, phone)
    requires f.direct != Some(ReadMain) && f.direct != Some(WriteMain) && f.direct != Some(ReadBack)
    ensures SaveEmailEffect(d, phone, email, f).1
  {
    var u := EmailUpdates(email);
    var afterUpdate := UpdateEffect(d, phone, u, f.primary).0;
    UpdateOldOrNew(d, phone, u, f.primary);
    RewrittenKeyed(d.main.value, phone, u);
    DirectSaveSucceeds(afterUpdate, phone, email, f.direct);
  }

  /** The save of the `collect_email` branch: the protected update, a re-read
      through the ledger, and the direct save as the fallback when the re-read
      throws or does not show the address. */
  method SaveEmail(csv: CsvService, phone: string, email: string, f: SaveFaults) returns (saved: bool)
    modifies csv
    ensures (csv.State(), saved) == SaveEmailEffect(old(csv.State()), phone, email, f)
  {
    var _ := csv.UpdateContact(phone, EmailUpdates(email), f.primary);
    var contacts := csv.ReadContacts(f.readBackThrows);
    if contacts.Returned? && EmailShown(Find(contacts.value, phone), email) {
      return true;
    }
    saved := DirectSaveEmailToCsv(csv, phone, email, f.direct);
  }
}
