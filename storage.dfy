/** The key-value layer over the extension's local storage: three keys,
    `changes` (the tracked list), `updated` (the pending buffer of changes
    found while no popup was open) and `options` (the connection settings).
    JSON encoding is the identity here: a key holds a list or an options
    value, or is absent. */
module Storage {
  import opened Records

  /** The three keys at one moment; `None` is a key never written. */
  datatype Snapshot = Snapshot(
    changes: Option<seq<Change>>,
    updated: Option<seq<Change>>,
    options: Option<Options>)

  /** `getChanges`: the stored list, or `[]` when the key is absent. */
  function ChangesOf(st: Snapshot): (r: seq<Change>)
    ensures st.changes.None? ==> r == []
    ensures st.changes.Some? ==> r == st.changes.value
  {
    if st.changes.Some? then st.changes.value else []
  }

  /** What `getUpdatedChanges` reads before it clears the buffer. */
  function PendingOf(st: Snapshot): (r: seq<Change>)
    ensures st.updated.None? ==> r == []
    ensures st.updated.Some? ==> r == st.updated.value
  {
    if st.updated.Some? then st.updated.value else []
  }

  /** `getOptions`: the stored options, or `{}` when the key is absent. */
  function OptionsOf(st: Snapshot): (r: Options)
    ensures st.options.None? ==> r == NoOptions
    ensures st.options.Some? ==> r == st.options.value
  {
    if st.options.Some? then st.options.value else NoOptions
  }

  /** `isConfigSet` on given options. The conjunction short-circuits, and
      reading `.length` of a field that is not set throws. */
  function ConfigCheck(o: Options): (r: Result<bool>)
    ensures r == Ok(true) <==>
      && o != NoOptions
      && o.endpoint.Some? && |o.endpoint.value| > 0
      && o.credentials.Some?
      && o.credentials.value.email.Some? && |o.credentials.value.email.value| > 0
      && o.credentials.value.password.Some? && |o.credentials.value.password.value| > 0
    ensures r.Err? <==>
      && o != NoOptions
      && (|| o.endpoint.None?
          || (&& |o.endpoint.value| > 0
              && (|| o.credentials.None?
                  || o.credentials.value.email.None?
                  || (|o.credentials.value.email.value| > 0 && o.credentials.value.password.None?))))
    ensures r.Err? ==> r.fault == UndefinedConfigField
  {
    if o == NoOptions then Ok(false)
    else if o.endpoint.None? then Err(UndefinedConfigField)
    else if |o.endpoint.value| == 0 then Ok(false)
    else if o.credentials.None? || o.credentials.value.email.None? then Err(UndefinedConfigField)
    else if |o.credentials.value.email.value| == 0 then Ok(false)
    else if o.credentials.value.password.None? then Err(UndefinedConfigField)
    else Ok(|o.credentials.value.password.value| > 0)
  }

  /** `isChangeEmpty`: an entry is empty unless both its subject and its
      status are set. */
  predicate IsChangeEmpty(c: Change) {
    !(c.subject.Some? && c.status.Some?)
  }

  /** A fresh add-change entry counts as empty, so a failed query evicts it. */
  lemma PlaceholderIsEmpty(id: string)
    ensures IsChangeEmpty(Placeholder(id))
    ensures !IsChangeEmpty(Placeholder(id).(subject := Some(""), status := Some("")))
  {
  }

  /** The browser's local storage area, holding the three keys. */
  class Store {
    var changes: Option<seq<Change>>
    var updated: Option<seq<Change>>
    var options: Option<Options>

    function State(): Snapshot
      reads this
    {
      Snapshot(changes, updated, options)
    }

    /** A storage area where only the options may have been written. */
    constructor (options: Option<Options>)
      ensures State() == Snapshot(None, None, options)
      ensures ChangesOf(State()) == [] && PendingOf(State()) == []
      ensures options.None? ==> OptionsOf(State()) == NoOptions
    {
      this.changes := None;
      this.updated := None;
      this.options := options;
    }

    /** `clear`: an empty tracked list, and the badge text emptied. */
    method Clear() returns (badge: Effect)
      modifies this
      ensures State() == old(State()).(changes := Some([]))
      ensures ChangesOf(State()) == []
      ensures badge == Badge("")
    {
      changes := Some([]);
      badge := Badge("");
    }

    /** `saveChanges`: the whole list is replaced, and reads back as written. */
    method SaveChanges(data: seq<Change>)
      modifies this
      ensures State() == old(State()).(changes := Some(data))
      ensures ChangesOf(State()) == data
    {
      changes := Some(data);
    }

    /** `saveUpdatedChanges`: `None` stands for `null`, which stores an empty buffer. */
    method SaveUpdatedChanges(data: Option<seq<Change>>)
      modifies this
      ensures State() == old(State()).(updated := Some(if data.Some? then data.value else []))
      ensures PendingOf(State()) == (if data.Some? then data.value else [])
    {
      updated := if data.Some? then Some(data.value) else Some([]);
    }

    /** `getUpdatedChanges`: read the buffer, then clear it; a second call
        returns `[]`. */
    method GetUpdatedChanges() returns (r: seq<Change>)
      modifies this
      ensures r == PendingOf(old(State()))
      ensures State() == old(State()).(updated := Some([]))
      ensures PendingOf(State()) == []
    {
      r := PendingOf(State());
      SaveUpdatedChanges(None);
    }
  }
}
