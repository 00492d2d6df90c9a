/**
 * The Lead Eloquent model: email extraction from the submitted form data,
 * the auto-flagging `creating` hook, and the leads table it is inserted into.
 */
module LeadModel {
  import opened Foundation
  import opened EmailFlagDetector

  // ------------------------------------------------------------ extractEmail

  /** The form-data keys tried first, in this order. */
  const EmailKeys: seq<string> :=
    ["email", "e-mail", "email_address", "contact_email", "sender_email", "your-email"]

  /**
   * `filter_var($v, FILTER_VALIDATE_EMAIL)` succeeds on a form value.
   * An int or bool becomes a digit string and an array is refused, so only a
   * string can validate.
   */
  predicate IsEmailValue(valid: string -> bool, v: Value)
  {
    v.Str? && valid(v.s)
  }

  /** `isset($formData[$key]) && filter_var($formData[$key], FILTER_VALIDATE_EMAIL)`. */
  predicate KeyHoldsEmail(valid: string -> bool, entries: seq<(string, Value)>, key: string)
  {
    var v := Lookup(entries, key);
    v.Some? && IsEmailValue(valid, v.value)
  }

  /** keys[j] is the first of `keys` under which a valid email is stored. */
  ghost predicate FirstKeyWithEmail(valid: string -> bool, entries: seq<(string, Value)>, keys: seq<string>, j: int)
  {
    0 <= j < |keys| && KeyHoldsEmail(valid, entries, keys[j]) &&
    forall i :: 0 <= i < j ==> !KeyHoldsEmail(valid, entries, keys[i])
  }

  /** entries[i] is the first entry, in form order, whose value is a valid email. */
  ghost predicate FirstEmailEntry(valid: string -> bool, entries: seq<(string, Value)>, i: int)
  {
    0 <= i < |entries| && IsEmailValue(valid, entries[i].1) &&
    forall k :: 0 <= k < i ==> !IsEmailValue(valid, entries[k].1)
  }

  /** The priority-key loop: the value under the first key that holds a valid email. */
  function FirstKeyedEmail(valid: string -> bool, entries: seq<(string, Value)>, keys: seq<string>): (r: Option<string>)
    ensures r.None? <==> forall j :: 0 <= j < |keys| ==> !KeyHoldsEmail(valid, entries, keys[j])
    ensures r.Some? ==>
      exists j :: FirstKeyWithEmail(valid, entries, keys, j) && Lookup(entries, keys[j]) == Some(Str(r.value))
    decreases |keys|
  {
    if |keys| == 0 then None
    else if KeyHoldsEmail(valid, entries, keys[0]) then
      assert FirstKeyWithEmail(valid, entries, keys, 0);
      Some(Lookup(entries, keys[0]).value.s)
    else
      var r := FirstKeyedEmail(valid, entries, keys[1..]);
      assert forall j :: 0 <= j < |keys| - 1 ==> keys[1..][j] == keys[j + 1];
      assert r.Some? ==> exists j :: FirstKeyWithEmail(valid, entries, keys, j) &&
                                     Lookup(entries, keys[j]) == Some(Str(r.value)) by {
        if r.Some? {
          var j :| FirstKeyWithEmail(valid, entries, keys[1..], j) && Lookup(entries, keys[1..][j]) == Some(Str(r.value));
          assert FirstKeyWithEmail(valid, entries, keys, j + 1);
        }
      }
      r
  }

  /** The fallback loop: the first string value in the form data that validates. */
  function FirstEmailValue(valid: string -> bool, entries: seq<(string, Value)>): (r: Option<string>)
    ensures r.None? <==> forall i :: 0 <= i < |entries| ==> !IsEmailValue(valid, entries[i].1)
    ensures r.Some? ==> exists i :: FirstEmailEntry(valid, entries, i) && entries[i].1 == Str(r.value)
    decreases |entries|
  {
    if |entries| == 0 then None
    else if IsEmailValue(valid, entries[0].1) then
      assert FirstEmailEntry(valid, entries, 0);
      Some(entries[0].1.s)
    else
      var r := FirstEmailValue(valid, entries[1..]);
      assert forall i :: 0 <= i < |entries| - 1 ==> entries[1..][i] == entries[i + 1];
      assert r.Some? ==> exists i :: FirstEmailEntry(valid, entries, i) && entries[i].1 == Str(r.value) by {
        if r.Some? {
          var i :| FirstEmailEntry(valid, entries[1..], i) && entries[1..][i].1 == Str(r.value);
          assert FirstEmailEntry(valid, entries, i + 1);
        }
      }
      r
  }

  /** Two first positions are the same position. */
  lemma FirstKeyUnique(valid: string -> bool, entries: seq<(string, Value)>, keys: seq<string>, j1: int, j2: int)
    requires FirstKeyWithEmail(valid, entries, keys, j1) && FirstKeyWithEmail(valid, entries, keys, j2)
    ensures j1 == j2
  {
  }

  lemma FirstEntryUnique(valid: string -> bool, entries: seq<(string, Value)>, i1: int, i2: int)
    requires FirstEmailEntry(valid, entries, i1) && FirstEmailEntry(valid, entries, i2)
    ensures i1 == i2
  {
  }

  /**
   * Lead::extractEmail. Not an array: none. Otherwise the value under the
   * first priority key holding a valid email; failing that, the first valid
   * string value in form order; failing that, none. The value is returned as
   * stored, in its original case.
   */
  function ExtractEmail(valid: string -> bool, formData: Value): (r: Option<string>)
    ensures !formData.Arr? ==> r.None?
    ensures r.Some? ==> valid(r.value)
    ensures formData.Arr? ==>
      (r.None? <==> forall i :: 0 <= i < |formData.entries| ==> !IsEmailValue(valid, formData.entries[i].1))
    ensures formData.Arr? ==> forall j :: FirstKeyWithEmail(valid, formData.entries, EmailKeys, j) ==>
      r.Some? && Lookup(formData.entries, EmailKeys[j]) == Some(Str(r.value))
    ensures formData.Arr? && (forall j :: 0 <= j < |EmailKeys| ==> !KeyHoldsEmail(valid, formData.entries, EmailKeys[j])) ==>
      forall i :: FirstEmailEntry(valid, formData.entries, i) ==> r == Some(formData.entries[i].1.s)
  {
    if !formData.Arr? then None
    else
      var entries := formData.entries;
      var keyed := FirstKeyedEmail(valid, entries, EmailKeys);
      if keyed.Some? then
        assert (forall j :: FirstKeyWithEmail(valid, entries, EmailKeys, j) ==>
                  Lookup(entries, EmailKeys[j]) == Some(Str(keyed.value))) &&
               exists k :: 0 <= k < |entries| && IsEmailValue(valid, entries[k].1) by {
          var j0 :| FirstKeyWithEmail(valid, entries, EmailKeys, j0) && Lookup(entries, EmailKeys[j0]) == Some(Str(keyed.value));
          forall j | FirstKeyWithEmail(valid, entries, EmailKeys, j)
            ensures Lookup(entries, EmailKeys[j]) == Some(Str(keyed.value))
          {
            FirstKeyUnique(valid, entries, EmailKeys, j, j0);
          }
          var k :| 0 <= k < |entries| && entries[k] == (EmailKeys[j0], Str(keyed.value));
          assert IsEmailValue(valid, entries[k].1);
        }
        keyed
      else
        var r := FirstEmailValue(valid, entries);
        assert forall i :: FirstEmailEntry(valid, entries, i) ==> r == Some(entries[i].1.s) by {
          forall i | FirstEmailEntry(valid, entries, i)
            ensures r == Some(entries[i].1.s)
          {
            var i0 :| FirstEmailEntry(valid, entries, i0) && entries[i0].1 == Str(r.value);
            FirstEntryUnique(valid, entries, i, i0);
          }
        }
        r
  }

  // ---------------------------------------------------------- autoFlagIfNeeded

  /**
   * The (flag_reason, flagged_at) pair a lead has once its `creating` hook
   * has run, given the pair it was filled with.
   */
  function AutoFlag(valid: string -> bool, now: int, formData: Value,
                    flagReason: Option<string>, flaggedAt: Option<int>): (r: (Option<string>, Option<int>))
    requires EmailValidator(valid)
    ensures !IsFalsy(flagReason) ==> r == (flagReason, flaggedAt)
    ensures ExtractEmail(valid, formData).None? ==> r == (flagReason, flaggedAt)
    ensures r == (flagReason, flaggedAt) || (r.0.Some? && r.0.value in {"test", "fake", "spam"} && r.1 == Some(now))
    ensures IsFalsy(flagReason) && ExtractEmail(valid, formData).Some? ==>
      var reason := Detect(valid, ExtractEmail(valid, formData));
      r == (if reason.Some? then (Some(reason.value.Name()), Some(now)) else (flagReason, flaggedAt))
  {
    if !IsFalsy(flagReason) then (flagReason, flaggedAt)
    else
      var email := ExtractEmail(valid, formData);
      if email.None? then (flagReason, flaggedAt)
      else
        var reason := Detect(valid, email);
        if reason.Some? then (Some(reason.value.Name()), Some(now)) else (flagReason, flaggedAt)
  }

  /** Running the hook a second time changes nothing: a flag it sets is truthy. */
  lemma AutoFlagIdempotent(valid: string -> bool, now: int, later: int, formData: Value,
                           flagReason: Option<string>, flaggedAt: Option<int>)
    requires EmailValidator(valid)
    ensures var once := AutoFlag(valid, now, formData, flagReason, flaggedAt);
            AutoFlag(valid, later, formData, once.0, once.1) == once
  {
    var once := AutoFlag(valid, now, formData, flagReason, flaggedAt);
    var email := ExtractEmail(valid, formData);
    if !IsFalsy(flagReason) || email.None? {
      assert once == (flagReason, flaggedAt);
    } else {
      var reason := Detect(valid, email);
      if reason.Some? {
        var name := reason.value.Name();
        assert name != "" && name != "0" by {
          assert name == "test" || name == "fake" || name == "spam";
        }
        assert once.0 == Some(name);
      } else {
        assert once == (flagReason, flaggedAt);
      }
    }
  }

  /** A lead whose form data holds no valid email is never flagged automatically. */
  lemma NoEmailNoFlag(valid: string -> bool, now: int, entries: seq<(string, Value)>)
    requires EmailValidator(valid)
    requires forall i :: 0 <= i < |entries| ==> !IsEmailValue(valid, entries[i].1)
    ensures AutoFlag(valid, now, Arr(entries), None, None) == (None, None)
  {
  }

  /** Extraction prefers a priority key even when another valid email comes first. */
  lemma PriorityKeyBeatsEarlierField(valid: string -> bool, other: string, first: string, keyed: string)
    requires other !in EmailKeys && valid(first) && valid(keyed)
    ensures ExtractEmail(valid, Arr([(other, Str(first)), ("email", Str(keyed))])) == Some(keyed)
  {
    var entries := [(other, Str(first)), ("email", Str(keyed))];
    assert Lookup(entries, "email") == Some(Str(keyed));
    assert FirstKeyWithEmail(valid, entries, EmailKeys, 0);
  }

  /** A later priority key loses to an earlier one, whatever the form order. */
  lemma EarlierPriorityKeyWins(valid: string -> bool, a: string, b: string)
    requires valid(a) && valid(b)
    ensures ExtractEmail(valid, Arr([("contact_email", Str(b)), ("e-mail", Str(a))])) == Some(a)
  {
    var entries := [("contact_email", Str(b)), ("e-mail", Str(a))];
    assert Lookup(entries, "email") == None;
    assert Lookup(entries, "e-mail") == Some(Str(a));
    assert FirstKeyWithEmail(valid, entries, EmailKeys, 1);
  }

  /** With no priority key, the first valid string in form order is taken; others are skipped. */
  lemma FallbackTakesFirstValidString(valid: string -> bool, k1: string, k2: string, k3: string, k4: string,
                                      junk: string, a: string, b: string)
    requires k1 !in EmailKeys && k2 !in EmailKeys && k3 !in EmailKeys && k4 !in EmailKeys
    requires k1 != k2 && k1 != k3 && k1 != k4 && k2 != k3 && k2 != k4 && k3 != k4
    requires !valid(junk) && valid(a) && valid(b)
    ensures ExtractEmail(valid, Arr([(k1, Num(5)), (k2, Str(junk)), (k3, Str(a)), (k4, Str(b))])) == Some(a)
  {
    var entries := [(k1, Num(5)), (k2, Str(junk)), (k3, Str(a)), (k4, Str(b))];
    forall j | 0 <= j < |EmailKeys|
      ensures Lookup(entries, EmailKeys[j]).None?
    {
      assert forall i :: 0 <= i < |entries| ==> entries[i].0 != EmailKeys[j];
    }
    assert FirstEmailEntry(valid, entries, 2);
  }

  // ---------------------------------------------------------- the Lead record

  /** The attributes a lead is created with (all nine are fillable). */
  datatype LeadAttributes = LeadAttributes(
    siteId: nat,
    formName: string,
    formData: Value,
    status: string,
    ipAddress: Option<string>,
    userAgent: Option<string>,
    submittedAt: Option<int>,
    flagReason: Option<string>,
    flaggedAt: Option<int>)

  /** A stored row of the leads table. */
  datatype LeadRecord = LeadRecord(id: nat, attrs: LeadAttributes)

  /** A Lead model instance that is being created. */
  class Lead {
    var siteId: nat
    var formName: string
    var formData: Value
    var status: string
    var ipAddress: Option<string>
    var userAgent: Option<string>
    var submittedAt: Option<int>
    var flagReason: Option<string>
    var flaggedAt: Option<int>

    /** `new Lead($attributes)`: mass assignment of the fillable attributes. */
    constructor (a: LeadAttributes)
      ensures Attributes() == a
    {
      siteId := a.siteId;
      formName := a.formName;
      formData := a.formData;
      status := a.status;
      ipAddress := a.ipAddress;
      userAgent := a.userAgent;
      submittedAt := a.submittedAt;
      flagReason := a.flagReason;
      flaggedAt := a.flaggedAt;
    }

    function Attributes(): (a: LeadAttributes)
      reads this
      ensures a.formData == formData && a.flagReason == flagReason && a.flaggedAt == flaggedAt
    {
      LeadAttributes(siteId, formName, formData, status, ipAddress, userAgent, submittedAt, flagReason, flaggedAt)
    }

    /**
     * Lead::autoFlagIfNeeded, run by the `creating` hook. Only the two flag
     * fields may change, and they change as AutoFlag says.
     */
    method AutoFlagIfNeeded(valid: string -> bool, now: int)
      requires EmailValidator(valid)
      modifies this`flagReason, this`flaggedAt
      ensures (flagReason, flaggedAt) == AutoFlag(valid, now, formData, old(flagReason), old(flaggedAt))
    {
      if !IsFalsy(flagReason) {
        return;
      }
      var email := ExtractEmail(valid, formData);
      if email.None? {
        return;
      }
      var reason := Detect(valid, email);
      if reason.Some? {
        flagReason := Some(reason.value.Name());
        flaggedAt := Some(now);
      }
    }
  }

  /** The row `Lead::create($a)` inserts under `id` at time `now`. */
  function CreatedRecord(valid: string -> bool, now: int, id: nat, a: LeadAttributes): (r: LeadRecord)
    requires EmailValidator(valid)
    ensures r.id == id
    ensures r.attrs == a.(flagReason := r.attrs.flagReason, flaggedAt := r.attrs.flaggedAt)
    ensures (r.attrs.flagReason, r.attrs.flaggedAt) == AutoFlag(valid, now, a.formData, a.flagReason, a.flaggedAt)
  {
    var flags := AutoFlag(valid, now, a.formData, a.flagReason, a.flaggedAt);
    LeadRecord(id, a.(flagReason := flags.0, flaggedAt := flags.1))
  }

  /** The leads table: rows in insertion order and the next auto-increment id. */
  class LeadStore {
    var rows: seq<LeadRecord>
    var nextId: nat

    /** Ids are positive, strictly increasing in insertion order, and below nextId. */
    ghost predicate Valid()
      reads this
    {
      1 <= nextId &&
      (forall i :: 0 <= i < |rows| ==> 1 <= rows[i].id < nextId) &&
      (forall i, j :: 0 <= i < j < |rows| ==> rows[i].id < rows[j].id)
    }

    constructor ()
      ensures Valid() && rows == [] && nextId == 1
    {
      rows := [];
      nextId := 1;
    }

    /** INSERT of one row under the next id. */
    method Insert(a: LeadAttributes) returns (id: nat)
      requires Valid()
      modifies this
      ensures Valid()
      ensures id == old(nextId) && nextId == old(nextId) + 1
      ensures rows == old(rows) + [LeadRecord(id, a)]
    {
      id := nextId;
      rows := rows + [LeadRecord(id, a)];
      nextId := nextId + 1;
    }

    /** UPDATE of one row's status; its id and every other row stay as they were. */
    method SetStatus(i: nat, status: string)
      requires Valid() && i < |rows|
      modifies this`rows
      ensures Valid()
      ensures rows == old(rows)[i := old(rows)[i].(attrs := old(rows)[i].attrs.(status := status))]
    {
      var updated := rows[i := rows[i].(attrs := rows[i].attrs.(status := status))];
      assert forall k :: 0 <= k < |updated| ==> updated[k].id == rows[k].id;
      rows := updated;
    }

    /** The position of the row with this id, if any. */
    function Find(id: nat): (r: Option<nat>)
      reads this
      ensures r.Some? ==> r.value < |rows| && rows[r.value].id == id
      ensures r.None? <==> forall i :: 0 <= i < |rows| ==> rows[i].id != id
    {
      FindFrom(rows, id)
    }
  }

  function FindFrom(rows: seq<LeadRecord>, id: nat): (r: Option<nat>)
    ensures r.Some? ==> r.value < |rows| && rows[r.value].id == id
    ensures r.None? <==> forall i :: 0 <= i < |rows| ==> rows[i].id != id
    decreases |rows|
  {
    if |rows| == 0 then None
    else if rows[0].id == id then Some(0)
    else
      var r := FindFrom(rows[1..], id);
      assert forall i :: 0 <= i < |rows| - 1 ==> rows[1..][i] == rows[i + 1];
      if r.Some? then Some(r.value + 1) else None
  }

  /**
   * Lead::create: fill a new model, fire the `creating` hook, insert it.
   * A failing write (`writeFails`) throws before anything is stored.
   */
  method Create(store: LeadStore, a: LeadAttributes, valid: string -> bool, now: int, writeFails: bool)
    returns (id: Option<nat>)
    requires store.Valid() && EmailValidator(valid)
    modifies store
    ensures store.Valid()
    ensures writeFails ==> id.None? && store.rows == old(store.rows) && store.nextId == old(store.nextId)
    ensures !writeFails ==>
      id == Some(old(store.nextId)) && store.rows == old(store.rows) + [CreatedRecord(valid, now, old(store.nextId), a)]
  {
    var lead := new Lead(a);
    lead.AutoFlagIfNeeded(valid, now);
    if writeFails {
      return None;
    }
    var newId := store.Insert(lead.Attributes());
    id := Some(newId);
  }
}
