/** The list edits of `ensure.backend_has_instance_group` and
    `ensure.backend_hasnt_instance_group`: the backends of a backend service
    gain the instance group's backend when none has its group, and lose every
    backend of that group otherwise. The fetches and the update call are
    given as inputs and outcomes. */
module Backends {
  import opened Wrappers
  import opened Json
  import opened Ensure

  /** A backend is a dict; `group` is the instance-group URL it serves. */
  type Backend = Entries

  /** `backend['group']`, None when the key is absent (a KeyError). */
  function Group(b: Backend): Option<Value>
  {
    Get(b, "group")
  }

  predicate InGroup(b: Backend, url: string)
  {
    Group(b) == Some(Str(url))
  }

  /** `{"group": url, "balancingMode": mode}`. */
  function BackendConfig(url: string, mode: string): Backend
  {
    [("group", Str(url)), ("balancingMode", Str(mode))]
  }

  /** Where the `for` loop over the backends stops: at the first backend of
      the group (`Ok(Some(i))`), at a backend with no `group` key, which
      raises (`Err(i)`), or nowhere (`Ok(None)`). */
  function FirstOfGroup(backends: seq<Backend>, url: string): (r: Result<Option<nat>, nat>)
    ensures r == Ok(None) <==> forall i :: 0 <= i < |backends| ==> Group(backends[i]).Some? && !InGroup(backends[i], url)
    ensures r.Ok? && r.value.Some? ==>
      && r.value.value < |backends| && InGroup(backends[r.value.value], url)
      && forall j :: 0 <= j < r.value.value ==> Group(backends[j]).Some? && !InGroup(backends[j], url)
    ensures r.Err? ==>
      && r.error < |backends| && Group(backends[r.error]).None?
      && forall j :: 0 <= j < r.error ==> Group(backends[j]).Some? && !InGroup(backends[j], url)
  {
    if backends == [] then Ok(None)
    else if Group(backends[0]).None? then Err(0)
    else if InGroup(backends[0], url) then Ok(Some(0))
    else match FirstOfGroup(backends[1..], url)
      case Ok(None) => Ok(None)
      case Ok(Some(i)) => Ok(Some(i + 1))
      case Err(i) => Err(i + 1)
  }

  datatype HasOutcome =
    | AlreadyThere(index: nat)                                              // the group's backend validates
    | InvalidBackend(index: nat, key: string, expected: Value, actual: Option<Value>) // schema.validate raised
    | Appended(backends: seq<Backend>)                                      // the update sent this list
    | MissingGroup(index: nat)                                              // `backend['group']` raised

  /** The outcome of `backend_has_instance_group` for the current backends. */
  function HasSpec(backends: seq<Backend>, url: string, mode: string, validate: Validator): HasOutcome
  {
    match FirstOfGroup(backends, url)
    case Err(i) => MissingGroup(i)
    case Ok(None) => Appended(backends + [BackendConfig(url, mode)])
    case Ok(Some(i)) =>
      var cfg := BackendConfig(url, mode);
      match FirstInvalid(cfg, backends[i], validate)
      case None => AlreadyThere(i)
      case Some(j) => InvalidBackend(i, cfg[j].0, cfg[j].1, Get(backends[i], cfg[j].0))
  }

  /** The `for ... else` of `backend_has_instance_group`: validate the first
      backend of the group and stop, or, when the loop runs out, append the
      group's backend. */
  method HasInstanceGroup(backends: seq<Backend>, url: string, mode: string, validate: Validator)
    returns (r: HasOutcome)
    ensures r == HasSpec(backends, url, mode, validate)
  {
    var cfg := BackendConfig(url, mode);
    for i := 0 to |backends|
      invariant forall j :: 0 <= j < i ==> Group(backends[j]).Some? && !InGroup(backends[j], url)
    {
      var g := Group(backends[i]);
      if g.None? {
        assert FirstOfGroup(backends, url) == Err(i);
        return MissingGroup(i);
      }
      if g.value == Str(url) {
        assert FirstOfGroup(backends, url) == Ok(Some(i));
        for k := 0 to |cfg|
          invariant forall j :: 0 <= j < k ==> validate(cfg[j].1, Get(backends[i], cfg[j].0))
        {
          var (key, v) := cfg[k];
          if !validate(v, Get(backends[i], key)) {
            assert FirstInvalid(cfg, backends[i], validate) == Some(k);
            return InvalidBackend(i, key, v, Get(backends[i], key));
          }
        }
        return AlreadyThere(i);
      }
    }
    r := Appended(backends + [cfg]);
  }

  /** The backend is appended exactly when every backend has a group and
      none is the instance group's; then the list grows by that one backend
      and nothing else changes. */
  lemma HasAppendsIffAbsent(backends: seq<Backend>, url: string, mode: string, validate: Validator)
    ensures HasSpec(backends, url, mode, validate).Appended? <==>
      forall i :: 0 <= i < |backends| ==> Group(backends[i]).Some? && !InGroup(backends[i], url)
    ensures HasSpec(backends, url, mode, validate).Appended? ==>
      HasSpec(backends, url, mode, validate).backends == backends + [BackendConfig(url, mode)]
  {
  }

  lemma ConfigDistinct(url: string, mode: string)
    ensures DistinctKeys(BackendConfig(url, mode))
  {
  }

  /** Running `has` again after it appended finds the appended backend and
      sends no second update, whenever `validate` accepts a value against
      itself. */
  lemma {:induction false} HasIsIdempotent(backends: seq<Backend>, url: string, mode: string, validate: Validator)
    requires forall v :: validate(v, Some(v))
    requires HasSpec(backends, url, mode, validate).Appended?
    ensures HasSpec(HasSpec(backends, url, mode, validate).backends, url, mode, validate) == AlreadyThere(|backends|)
  {
    AppendedIsFirst(backends, url, mode);
    ConfigValidates(url, mode, validate);
  }

  lemma ConfigGroup(url: string, mode: string)
    ensures Group(BackendConfig(url, mode)) == Some(Str(url))
  {
    assert BackendConfig(url, mode)[0] == ("group", Str(url));
  }

  /** When the loop runs through `backends`, on `backends + [b]` it stops
      where `b` alone would make it stop. */
  lemma {:induction false} FirstOfGroupAppend(backends: seq<Backend>, url: string, b: Backend)
    requires FirstOfGroup(backends, url) == Ok(None)
    ensures FirstOfGroup(backends + [b], url) ==
      if Group(b).None? then Err(|backends|)
      else if InGroup(b, url) then Ok(Some(|backends|))
      else Ok(None)
  {
    if backends != [] {
      assert (backends + [b])[1..] == backends[1..] + [b];
      FirstOfGroupAppend(backends[1..], url, b);
    }
  }

  /** After the append, the loop stops at the appended backend. */
  lemma AppendedIsFirst(backends: seq<Backend>, url: string, mode: string)
    requires FirstOfGroup(backends, url) == Ok(None)
    ensures FirstOfGroup(backends + [BackendConfig(url, mode)], url) == Ok(Some(|backends|))
  {
    ConfigGroup(url, mode);
    FirstOfGroupAppend(backends, url, BackendConfig(url, mode));
  }

  /** The group's backend as `has` writes it passes its own validation. */
  lemma ConfigValidates(url: string, mode: string, validate: Validator)
    requires forall v :: validate(v, Some(v))
    ensures FirstInvalid(BackendConfig(url, mode), BackendConfig(url, mode), validate) == None
  {
    var cfg := BackendConfig(url, mode);
    ConfigDistinct(url, mode);
    forall j | 0 <= j < |cfg| ensures validate(cfg[j].1, Get(cfg, cfg[j].0)) {
      GetEntry(cfg, j);
    }
  }

  /** `[backend for backend in backends if backend['group'] != url]`, with
      every backend assumed to have a group (`Hasnt` checks that first). */
  function Kept(backends: seq<Backend>, url: string): (r: seq<Backend>)
    ensures |r| <= |backends|
  {
    if backends == [] then []
    else
      var rest := Kept(backends[1..], url);
      if InGroup(backends[0], url) then rest else [backends[0]] + rest
  }

  /** The filter keeps the length exactly when no backend is in the group. */
  lemma {:induction false} KeptLengthIff(backends: seq<Backend>, url: string)
    ensures |Kept(backends, url)| == |backends| <==> forall i :: 0 <= i < |backends| ==> !InGroup(backends[i], url)
    decreases |backends|
  {
    if backends != [] {
      KeptLengthIff(backends[1..], url);
      assert forall i :: 1 <= i < |backends| ==> backends[i] == backends[1..][i - 1];
    }
  }

  /** The filter keeps exactly the backends outside the group. */
  lemma {:induction false} KeptMember(backends: seq<Backend>, url: string, x: Backend)
    ensures x in Kept(backends, url) <==> x in backends && !InGroup(x, url)
    decreases |backends|
  {
    if backends != [] {
      KeptMember(backends[1..], url, x);
      assert x in backends <==> x == backends[0] || x in backends[1..] by {
        assert backends == [backends[0]] + backends[1..];
      }
    }
  }

  /** The filter keeps the order: it distributes over concatenation. */
  lemma {:induction false} KeptAppend(a: seq<Backend>, b: seq<Backend>, url: string)
    ensures Kept(a + b, url) == Kept(a, url) + Kept(b, url)
    decreases |a|
  {
    if a == [] {
      assert a + b == b;
    } else {
      KeptAppend(a[1..], b, url);
      assert (a + b)[0] == a[0] && (a + b)[1..] == a[1..] + b;
    }
  }

  /** A list with no backend of the group passes the filter unchanged. */
  lemma {:induction false} KeptNone(backends: seq<Backend>, url: string)
    requires forall i :: 0 <= i < |backends| ==> !InGroup(backends[i], url)
    ensures Kept(backends, url) == backends
    decreases |backends|
  {
    if backends != [] {
      KeptNone(backends[1..], url);
      assert [backends[0]] + backends[1..] == backends;
    }
  }

  /** The outcome of fetching the instance group manager. */
  datatype ManagerOutcome = ManagerFound(instanceGroup: string) | ManagerHttpError(status: int)

  datatype HasntOutcome =
    | ManagerAbsent                    // the manager get answered 404: nothing to do
    | ManagerRaised(status: int)       // any other HTTP error is re-raised
    | NoBackendOfGroup                 // lengths equal: no update
    | Removed(backends: seq<Backend>)  // the update sent this list
    | GroupKeyMissing                  // some backend has no `group`: the comprehension raised

  /** The outcome of `backend_hasnt_instance_group`. */
  function Hasnt(manager: ManagerOutcome, backends: seq<Backend>): (r: HasntOutcome)
    ensures r == ManagerAbsent <==> manager == ManagerHttpError(404)
    ensures r.ManagerRaised? <==> manager.ManagerHttpError? && manager.status != 404
    ensures r.ManagerRaised? ==> r.status == manager.status
    ensures r.Removed? ==> |r.backends| < |backends|
  {
    match manager
    case ManagerHttpError(status) => if status == 404 then ManagerAbsent else ManagerRaised(status)
    case ManagerFound(url) =>
      if exists i :: 0 <= i < |backends| && Group(backends[i]).None? then GroupKeyMissing
      else
        var kept := Kept(backends, url);
        if |kept| == |backends| then NoBackendOfGroup else Removed(kept)
  }

  /** An update is sent exactly when some backend belongs to the group; it
      sends the old list with every backend of the group removed, in order. */
  lemma HasntRemovesIffPresent(manager: ManagerOutcome, backends: seq<Backend>)
    ensures Hasnt(manager, backends).Removed? <==>
      && manager.ManagerFound?
      && (forall i :: 0 <= i < |backends| ==> Group(backends[i]).Some?)
      && exists i :: 0 <= i < |backends| && InGroup(backends[i], manager.instanceGroup)
    ensures Hasnt(manager, backends).Removed? ==>
      && Hasnt(manager, backends).backends == Kept(backends, manager.instanceGroup)
      && forall x :: x in Hasnt(manager, backends).backends <==> x in backends && !InGroup(x, manager.instanceGroup)
  {
    if manager.ManagerFound? {
      KeptLengthIff(backends, manager.instanceGroup);
    }
    if Hasnt(manager, backends).Removed? {
      forall x ensures x in Hasnt(manager, backends).backends <==> x in backends && !InGroup(x, manager.instanceGroup) {
        KeptMember(backends, manager.instanceGroup, x);
      }
    }
  }

  /** `hasnt` after `has` appended the group's backend removes it again and
      restores the list `has` started from. */
  lemma {:induction false} HasntUndoesHas(backends: seq<Backend>, url: string, mode: string, validate: Validator)
    requires HasSpec(backends, url, mode, validate).Appended?
    ensures Hasnt(ManagerFound(url), HasSpec(backends, url, mode, validate).backends) == Removed(backends)
  {
    var cfg := BackendConfig(url, mode);
    var next := backends + [cfg];
    assert InGroup(cfg, url) by { GetEntry(cfg, 0); }
    KeptAppend(backends, [cfg], url);
    KeptNone(backends, url);
    assert Kept([cfg], url) == [];
    assert next[|backends|] == cfg;
    forall i | 0 <= i < |next| ensures Group(next[i]).Some? {
      if i < |backends| { assert next[i] == backends[i]; }
    }
  }

  /** `has` after `hasnt` removed the group's backends appends the group's
      backend to what `hasnt` left. */
  lemma HasAfterHasnt(backends: seq<Backend>, url: string, mode: string, validate: Validator)
    requires Hasnt(ManagerFound(url), backends).Removed?
    ensures var left := Hasnt(ManagerFound(url), backends).backends;
      HasSpec(left, url, mode, validate) == Appended(left + [BackendConfig(url, mode)])
  {
    var left := Hasnt(ManagerFound(url), backends).backends;
    forall i | 0 <= i < |left| ensures Group(left[i]).Some? && !InGroup(left[i], url) {
      KeptMember(backends, url, left[i]);
      var j :| 0 <= j < |backends| && backends[j] == left[i];
    }
  }
}
