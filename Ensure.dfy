/** `_ensure`: get a named resource; create it when the get answers 404;
    otherwise check every key of the (schemafied) desired config against the
    (resafied) resource and raise on the first mismatch. The remote `get` and
    `insert` calls are given as their outcomes, and `schema.validate` as an
    opaque predicate on the desired value and what the resource holds. */
module Ensure {
  import opened Wrappers
  import opened Json

  /** What calling `get()` did. */
  datatype GetOutcome =
    | Found(resource: Entries)
    | HttpError(status: int)   // googleapiclient.errors.HttpError with this status
    | OtherFailure             // any other exception

  /** What calling `insert()` would do. */
  datatype InsertOutcome = Inserted(answer: Entries) | InsertFailed

  /** What `_ensure` returns or raises. */
  datatype EnsureOutcome =
    | Existing(resource: Entries)                                 // get succeeded, every key valid
    | Created(answer: Entries)                                     // get answered 404, insert succeeded
    | Invalid(key: string, expected: Value, actual: Option<Value>) // schema.validate raised
    | GetRaised(status: Option<int>)                              // get failed otherwise; re-raised
    | InsertRaised                                                // insert raised
    | NameMissing                                                 // `config["name"]` in the log line raised

  /** The opaque `schema.validate({(name, k): v}, {(name, k): actual})`:
      true when the check passes. */
  type Validator = (Value, Option<Value>) -> bool

  /** The index of the first entry of `c` that `res` fails to validate. */
  function FirstInvalid(c: Entries, res: Entries, validate: Validator): (r: Option<nat>)
    ensures r.None? <==> forall i :: 0 <= i < |c| ==> validate(c[i].1, Get(res, c[i].0))
    ensures r.Some? ==> r.value < |c| && !validate(c[r.value].1, Get(res, c[r.value].0))
    ensures r.Some? ==> forall i :: 0 <= i < r.value ==> validate(c[i].1, Get(res, c[i].0))
  {
    if c == [] then None
    else if !validate(c[0].1, Get(res, c[0].0)) then Some(0)
    else match FirstInvalid(c[1..], res, validate)
      case None => None
      case Some(i) => Some(i + 1)
  }

  predicate HasName(config: Entries)
  {
    Get(config, "name").Some?
  }

  /** The outcome of `_ensure` for the given call outcomes. */
  function EnsureSpec(get: GetOutcome, insert: InsertOutcome, config: Entries,
                      schemafy: Entries -> Entries, resafy: Entries -> Entries, validate: Validator): EnsureOutcome
  {
    match get
    case OtherFailure => GetRaised(None)
    case HttpError(status) =>
      if status != 404 then GetRaised(Some(status))
      else if insert.InsertFailed? then InsertRaised
      else if !HasName(config) then NameMissing
      else Created(insert.answer)
    case Found(res) =>
      if !HasName(config) then NameMissing
      else
        var c := schemafy(config);
        var r := resafy(res);
        match FirstInvalid(c, r, validate)
        case None => Existing(res)
        case Some(i) => Invalid(c[i].0, c[i].1, Get(r, c[i].0))
  }

  /** `_ensure` itself. `insertCalls` counts the calls of `insert`. */
  method RunEnsure(get: GetOutcome, insert: InsertOutcome, config: Entries,
                   schemafy: Entries -> Entries, resafy: Entries -> Entries, validate: Validator)
    returns (r: EnsureOutcome, insertCalls: nat)
    ensures r == EnsureSpec(get, insert, config, schemafy, resafy, validate)
    ensures insertCalls == if get == HttpError(404) then 1 else 0
  {
    insertCalls := 0;
    match get {
      case OtherFailure =>
        return GetRaised(None), insertCalls;
      case HttpError(status) =>
        if status != 404 {
          return GetRaised(Some(status)), insertCalls;
        }
        insertCalls := insertCalls + 1;
        if insert.InsertFailed? {
          return InsertRaised, insertCalls;
        }
        if !HasName(config) {
          return NameMissing, insertCalls;
        }
        r := Created(insert.answer);
      case Found(res) =>
        if !HasName(config) {
          return NameMissing, insertCalls;
        }
        var c := schemafy(config);
        var rr := resafy(res);
        var i := 0;
        while i < |c|
          invariant 0 <= i <= |c|
          invariant forall j :: 0 <= j < i ==> validate(c[j].1, Get(rr, c[j].0))
        {
          var (k, v) := c[i];
          if !validate(v, Get(rr, k)) {
            assert FirstInvalid(c, rr, validate) == Some(i);
            return Invalid(k, v, Get(rr, k)), insertCalls;
          }
          i := i + 1;
        }
        r := Existing(res);
    }
  }

  /** `insert` is reached exactly on a 404, and an existing resource is
      returned exactly when every key of the schemafied config validates. */
  lemma EnsureBranches(get: GetOutcome, insert: InsertOutcome, config: Entries,
                       schemafy: Entries -> Entries, resafy: Entries -> Entries, validate: Validator)
    ensures var r := EnsureSpec(get, insert, config, schemafy, resafy, validate);
      && (r.Created? <==> get == HttpError(404) && insert.Inserted? && HasName(config))
      && (r.Created? ==> r.answer == insert.answer)
      && (r.Existing? <==>
            && get.Found? && HasName(config)
            && forall i :: 0 <= i < |schemafy(config)| ==>
                 validate(schemafy(config)[i].1, Get(resafy(get.resource), schemafy(config)[i].0)))
      && (r.Existing? ==> r.resource == get.resource)
      && (r.GetRaised? <==> get.OtherFailure? || (get.HttpError? && get.status != 404))
  {
  }

  /** A name-to-resource store standing in for the API: `get` finds what
      the store holds under the config's name, and `insert` stores the
      config under that name and answers with it. */
  type Store = map<Value, Entries>

  function StoreGet(store: Store, name: Value): (g: GetOutcome)
    ensures g.Found? <==> name in store
    ensures g.Found? ==> g.resource == store[name]
    ensures !g.Found? ==> g == HttpError(404)
  {
    if name in store then Found(store[name]) else HttpError(404)
  }

  /** One `_ensure` call against the store: its outcome and the new store. */
  function EnsureOnStore(store: Store, config: Entries,
                         schemafy: Entries -> Entries, resafy: Entries -> Entries, validate: Validator): (Store, EnsureOutcome)
    requires HasName(config)
  {
    var name := Get(config, "name").value;
    var get := StoreGet(store, name);
    var out := EnsureSpec(get, Inserted(config), config, schemafy, resafy, validate);
    (if get == HttpError(404) then store[name := config] else store, out)
  }

  /** A second call with the same config finds the resource, inserts
      nothing and leaves the store as the first call left it. */
  lemma {:induction false} EnsureIdempotent(store: Store, config: Entries,
                                             schemafy: Entries -> Entries, resafy: Entries -> Entries, validate: Validator)
    requires HasName(config)
    ensures var (s1, _) := EnsureOnStore(store, config, schemafy, resafy, validate);
      var (s2, o2) := EnsureOnStore(s1, config, schemafy, resafy, validate);
      && Get(config, "name").value in s1
      && s2 == s1
      && !o2.Created?
      && StoreGet(s1, Get(config, "name").value) != HttpError(404)
  {
    var name := Get(config, "name").value;
    var (s1, _) := EnsureOnStore(store, config, schemafy, resafy, validate);
    assert name in s1;
  }

  /** When the first call created the resource, the second call returns it
      as existing, provided `schemafy`/`resafy` change nothing, the config
      is a dict, and `validate` accepts a value against itself. */
  lemma {:induction false} EnsureCreatedThenExisting(store: Store, config: Entries,
                                                     schemafy: Entries -> Entries, resafy: Entries -> Entries, validate: Validator)
    requires HasName(config) && DistinctKeys(config)
    requires Get(config, "name").value !in store
    requires forall e :: schemafy(e) == e
    requires forall e :: resafy(e) == e
    requires forall v :: validate(v, Some(v))
    ensures EnsureOnStore(store, config, schemafy, resafy, validate).1 == Created(config)
    ensures var s1 := EnsureOnStore(store, config, schemafy, resafy, validate).0;
      EnsureOnStore(s1, config, schemafy, resafy, validate) == (s1, Existing(config))
  {
    var s1 := EnsureOnStore(store, config, schemafy, resafy, validate).0;
    var name := Get(config, "name").value;
    assert s1[name] == config;
    assert schemafy(config) == config && resafy(config) == config;
    forall i | 0 <= i < |config| ensures validate(config[i].1, Get(config, config[i].0)) {
      GetEntry(config, i);
    }
  }
}
