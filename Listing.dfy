/** `ls`: list the instances of one zone that match a state and a list of
    selectors. The first selector decides how every selector is read; ids,
    names and labels become a server-side filter expression, private IPs,
    public IPs and tags are checked on each item while the result pages are
    walked. The pages the compute API would return for that filter are an
    input here, and what the generator yields is the output. */
module Listing {
  import opened Wrappers
  import opened Strings
  import opened Instances

  /** The states `ls` accepts besides `None`. Two adjacent literals make
      `repairingstopping` one entry: neither `repairing` nor `stopping`
      is accepted on its own. */
  const AcceptedStates: seq<string> :=
    ["all", "running", "provisioning", "staging", "repairingstopping", "terminated"]

  datatype SelectorKind = InstanceId | PrivateIp | PublicIp | NameLabel | Label | Tag

  /** How `ls` reads its selectors, decided by the first one alone. The
      branch for an unknown selector cannot be reached: a selector that is
      not a name holds `=` or `:`. */
  function Classify(s: string): (k: SelectorKind)
    ensures k == Tag ==> ':' in s && '=' !in s
  {
    if IsDigits(s) then InstanceId
    else if "10." <= s then PrivateIp
    else if Count(s, '.') == 3 then PublicIp
    else if ':' !in s && '=' !in s then NameLabel
    else if '=' in s then Label
    else Tag
  }

  /** What stops `ls` before it yields anything. */
  datatype LsError =
    | BadState(state: Option<string>)   // the state assertion
    | NoneHasNoUpper                    // `None` passes the assertion, then `state.upper()` raises
    | UnpackFailed(selector: string)    // `k, v = s.split(...)` without exactly two parts

  /** The server-side filter and the three client-side selections. */
  datatype Query = Query(filter: string, tags: seq<string>, ipPrivs: seq<string>, ips: seq<string>)

  /** One parenthesised comparison of the filter language: `(field = value)`. */
  function Clause(field: string, value: string): string
  {
    "(" + field + " = " + value + ")"
  }

  function Clauses(field: string, values: seq<string>): (r: seq<string>)
    ensures |r| == |values|
    ensures forall i :: 0 <= i < |values| ==> r[i] == Clause(field, values[i])
  {
    seq(|values|, i requires 0 <= i < |values| => Clause(field, values[i]))
  }

  /** `k, v = s.split(c)`: succeeds exactly when `s` holds `c` once. */
  function Unpack(s: string, c: char): (r: Option<(string, string)>)
    ensures r.Some? <==> Count(s, c) == 1
    ensures r.Some? ==> s == r.value.0 + [c] + r.value.1 && c !in r.value.0 && c !in r.value.1
  {
    var parts := Split(s, c);
    if |parts| == 2 then
      assert Join([c], parts) == parts[0] + [c] + Join([c], parts[1..]);
      assert parts[1..] == [parts[1]];
      Some((parts[0], parts[1]))
    else None
  }

  /** Unpacks every selector in turn; the first one that does not split
      into two parts is the error. */
  function UnpackAll(sels: seq<string>, c: char): Result<seq<(string, string)>, LsError>
    decreases |sels|
  {
    if sels == [] then Ok([])
    else
      var last := sels[|sels| - 1];
      match UnpackAll(sels[..|sels| - 1], c)
      case Err(e) => Err(e)
      case Ok(ps) =>
        match Unpack(last, c)
        case None => Err(UnpackFailed(last))
        case Some(p) => Ok(ps + [p])
  }

  /** Unpacking all selectors succeeds exactly when each holds the separator
      once, and then gives each selector's two parts; otherwise it fails on
      the first selector that does not. */
  lemma {:induction false} UnpackAllSpec(sels: seq<string>, c: char)
    ensures UnpackAll(sels, c).Ok? <==> forall i :: 0 <= i < |sels| ==> Count(sels[i], c) == 1
    ensures UnpackAll(sels, c).Ok? ==>
      && |UnpackAll(sels, c).value| == |sels|
      && forall i :: 0 <= i < |sels| ==> Unpack(sels[i], c) == Some(UnpackAll(sels, c).value[i])
    ensures UnpackAll(sels, c).Err? ==>
      exists i :: && 0 <= i < |sels| && UnpackAll(sels, c).error == UnpackFailed(sels[i])
                  && Count(sels[i], c) != 1
                  && forall j :: 0 <= j < i ==> Count(sels[j], c) == 1
    decreases |sels|
  {
    if sels != [] {
      var init := sels[..|sels| - 1];
      assert forall i :: 0 <= i < |init| ==> init[i] == sels[i];
      UnpackAllSpec(init, c);
    }
  }

  /** A failure on a prefix of the selectors is the failure of them all. */
  lemma {:induction false} UnpackAllPrefixErr(sels: seq<string>, n: nat, c: char)
    requires n <= |sels|
    requires UnpackAll(sels[..n], c).Err?
    ensures UnpackAll(sels, c) == UnpackAll(sels[..n], c)
    decreases |sels| - n
  {
    if n < |sels| {
      assert sels[..|sels| - 1][..n] == sels[..n];
      UnpackAllPrefixErr(sels[..|sels| - 1], n, c);
    } else {
      assert sels[..n] == sels;
    }
  }

  function LabelClauses(pairs: seq<(string, string)>): (r: seq<string>)
    ensures |r| == |pairs|
    ensures forall i :: 0 <= i < |pairs| ==> r[i] == Clause("labels." + pairs[i].0, pairs[i].1)
  {
    seq(|pairs|, i requires 0 <= i < |pairs| => Clause("labels." + pairs[i].0, pairs[i].1))
  }

  function TagValues(pairs: seq<(string, string)>): (r: seq<string>)
    ensures |r| == |pairs|
    ensures forall i :: 0 <= i < |pairs| ==> r[i] == pairs[i].1
  {
    seq(|pairs|, i requires 0 <= i < |pairs| => pairs[i].1)
  }

  /** The clauses the state contributes, after the state assertion. */
  function StateClauses(state: Option<string>): Result<seq<string>, LsError>
  {
    if state.Some? && state.value !in AcceptedStates then Err(BadState(state))
    else if state.None? then Err(NoneHasNoUpper)
    else if state.value == "all" then Ok([])
    else Ok([Clause("status", Upper(state.value))])
  }

  /** What the selectors contribute: filter clauses, tags, private and public IPs. */
  datatype Selection = Selection(clauses: seq<string>, tags: seq<string>, ipPrivs: seq<string>, ips: seq<string>)

  function Select(sels: seq<string>): Result<Selection, LsError>
  {
    if sels == [] then Ok(Selection([], [], [], []))
    else
      match Classify(sels[0])
      case InstanceId => Ok(Selection(["(" + Join(" OR ", Clauses("id", sels)) + ")"], [], [], []))
      case PrivateIp => Ok(Selection([], [], sels, []))
      case PublicIp => Ok(Selection([], [], [], sels))
      case NameLabel => Ok(Selection(["(" + Join(" OR ", Clauses("labels.name", sels)) + ")"], [], [], []))
      case Label =>
        (match UnpackAll(sels, '=')
         case Err(e) => Err(e)
         case Ok(ps) => Ok(Selection([Join(" AND ", LabelClauses(ps))], [], [], [])))
      case Tag =>
        (match UnpackAll(sels, ':')
         case Err(e) => Err(e)
         case Ok(ps) => Ok(Selection([], TagValues(ps), [], [])))
  }

  /** The query `ls` builds before the first request. */
  function QuerySpec(state: Option<string>, sels: seq<string>): Result<Query, LsError>
  {
    match StateClauses(state)
    case Err(e) => Err(e)
    case Ok(head) =>
      match Select(sels)
      case Err(e) => Err(e)
      case Ok(sel) => Ok(Query(Join(" AND ", head + sel.clauses), sel.tags, sel.ipPrivs, sel.ips))
  }

  /** The id and name branches: one `(field = s)` clause per selector,
      joined with ` OR ` inside one pair of parentheses. */
  method OrFilter(field: string, selectors: seq<string>) returns (clause: string)
    ensures clause == "(" + Join(" OR ", Clauses(field, selectors)) + ")"
  {
    var fs: seq<string> := [];
    for i := 0 to |selectors|
      invariant fs == Clauses(field, selectors[..i])
    {
      fs := fs + [Clause(field, selectors[i])];
    }
    assert selectors[..|selectors|] == selectors;
    clause := "(" + Join(" OR ", fs) + ")";
  }

  /** The label branch: one `(labels.k = v)` clause per selector, joined
      with ` AND `; the first selector without exactly one `=` raises. */
  method LabelFilter(selectors: seq<string>) returns (r: Result<string, LsError>)
    ensures r == match UnpackAll(selectors, '=')
                 case Err(e) => Err(e)
                 case Ok(ps) => Ok(Join(" AND ", LabelClauses(ps)))
  {
    var fs: seq<string> := [];
    ghost var pairs: seq<(string, string)> := [];
    for i := 0 to |selectors|
      invariant UnpackAll(selectors[..i], '=') == Ok(pairs)
      invariant fs == LabelClauses(pairs)
    {
      assert selectors[..i + 1][..i] == selectors[..i];
      var kv := Unpack(selectors[i], '=');
      if kv.None? {
        UnpackAllPrefixErr(selectors, i + 1, '=');
        return Err(UnpackFailed(selectors[i]));
      }
      fs := fs + [Clause("labels." + kv.value.0, kv.value.1)];
      pairs := pairs + [kv.value];
    }
    assert selectors[..|selectors|] == selectors;
    r := Ok(Join(" AND ", fs));
  }

  /** The tag branch: keeps what follows the `:` of each selector; the
      first selector without exactly one `:` raises. */
  method TagFilter(selectors: seq<string>) returns (r: Result<seq<string>, LsError>)
    ensures r == match UnpackAll(selectors, ':')
                 case Err(e) => Err(e)
                 case Ok(ps) => Ok(TagValues(ps))
  {
    var tags: seq<string> := [];
    ghost var pairs: seq<(string, string)> := [];
    for i := 0 to |selectors|
      invariant UnpackAll(selectors[..i], ':') == Ok(pairs)
      invariant tags == TagValues(pairs)
    {
      assert selectors[..i + 1][..i] == selectors[..i];
      var kv := Unpack(selectors[i], ':');
      if kv.None? {
        UnpackAllPrefixErr(selectors, i + 1, ':');
        return Err(UnpackFailed(selectors[i]));
      }
      tags := tags + [kv.value.1];
      pairs := pairs + [kv.value];
    }
    assert selectors[..|selectors|] == selectors;
    r := Ok(tags);
  }

  /** Lines 113-153 as written: grows the clause list and the three
      client-side lists according to the first selector. */
  method BuildQuery(state: Option<string>, selectors: seq<string>) returns (r: Result<Query, LsError>)
    ensures r == QuerySpec(state, selectors)
  {
    if state.Some? && state.value !in AcceptedStates {
      return Err(BadState(state));
    }
    var filter: seq<string> := [];
    if state != Some("all") {
      if state.None? {
        return Err(NoneHasNoUpper);
      }
      filter := filter + [Clause("status", Upper(state.value))];
    }
    assert state.value == "all" ==> filter == [];
    assert state.value != "all" ==> filter == [Clause("status", Upper(state.value))];
    assert StateClauses(state) == Ok(filter);
    var tags: seq<string> := [];
    var ipPrivs: seq<string> := [];
    var ips: seq<string> := [];
    if |selectors| > 0 {
      var s0 := selectors[0];
      if IsDigits(s0) {
        var fs := OrFilter("id", selectors);
        filter := filter + [fs];
      } else if "10." <= s0 {
        for i := 0 to |selectors|
          invariant ipPrivs == selectors[..i]
        {
          ipPrivs := ipPrivs + [selectors[i]];
        }
        assert selectors[..|selectors|] == selectors;
      } else if Count(s0, '.') == 3 {
        for i := 0 to |selectors|
          invariant ips == selectors[..i]
        {
          ips := ips + [selectors[i]];
        }
        assert selectors[..|selectors|] == selectors;
      } else if ':' !in s0 && '=' !in s0 {
        var fs := OrFilter("labels.name", selectors);
        filter := filter + [fs];
      } else if '=' in s0 {
        var fs := LabelFilter(selectors);
        if fs.Err? {
          return Err(fs.error);
        }
        filter := filter + [fs.value];
      } else if ':' in s0 {
        var ts := TagFilter(selectors);
        if ts.Err? {
          return Err(ts.error);
        }
        tags := ts.value;
      } else {
        assert false;
      }
    }
    r := Ok(Query(Join(" AND ", filter), tags, ipPrivs, ips));
  }

  // ---------------------------------------------------------------------
  // The page walk

  /** `item['networkInterfaces'][0]['networkIP']`, or the exception it raises. */
  function FirstNetworkIP(x: Instance): Result<string, Fault>
  {
    match x.networkInterfaces
    case None => Err(MissingKey("networkInterfaces"))
    case Some(nics) =>
      if nics == [] then Err(IndexOutOfRange("networkInterfaces"))
      else if nics[0].networkIP.None? then Err(MissingKey("networkIP"))
      else Ok(nics[0].networkIP.value)
  }

  /** `item['networkInterfaces'][0]['accessConfigs'][0]['natIP']` under
      `except KeyError`: a missing key gives `Ok(None)`, an empty list still
      raises. */
  function FirstNatIP(x: Instance): Result<Option<string>, Fault>
  {
    match x.networkInterfaces
    case None => Ok(None)
    case Some(nics) =>
      if nics == [] then Err(IndexOutOfRange("networkInterfaces"))
      else match nics[0].accessConfigs
        case None => Ok(None)
        case Some(acs) =>
          if acs == [] then Err(IndexOutOfRange("accessConfigs"))
          else Ok(acs[0].natIP)
  }

  /** What the walk does with one item: yield it, `continue`, or raise. */
  datatype Verdict = Keep | Skip | Fail(fault: Fault)

  /** The three client-side checks of lines 159-169, in their order. */
  function Admit(q: Query, x: Instance): Verdict
  {
    if q.tags != [] && exists t :: t in q.tags && t !in x.tags then Skip
    else
      var privateOk :=
        if q.ipPrivs == [] then Keep
        else match FirstNetworkIP(x)
          case Err(f) => Fail(f)
          case Ok(a) => if a !in q.ipPrivs then Skip else Keep;
      if !privateOk.Keep? then privateOk
      else if q.ips == [] then Keep
      else match FirstNatIP(x)
        case Err(f) => Fail(f)
        case Ok(None) => Skip
        case Ok(Some(a)) => if a !in q.ips then Skip else Keep
  }

  /** An item is yielded exactly when it carries every selected tag, its
      first interface's private IP is selected (when private IPs are), and
      its first access config has a public IP that is selected (when public
      IPs are). */
  lemma AdmitKeepIff(q: Query, x: Instance)
    ensures Admit(q, x) == Keep <==>
      && (forall t :: t in q.tags ==> t in x.tags)
      && (q.ipPrivs != [] ==> FirstNetworkIP(x).Ok? && FirstNetworkIP(x).value in q.ipPrivs)
      && (q.ips != [] ==> FirstNatIP(x).Ok? && FirstNatIP(x).value.Some? && FirstNatIP(x).value.value in q.ips)
  {
  }

  /** The items of all pages, in page order. */
  function Flatten(pages: seq<seq<Instance>>): seq<Instance>
  {
    if pages == [] then [] else Flatten(pages[..|pages| - 1]) + pages[|pages| - 1]
  }

  lemma {:induction false} FlattenAppend(a: seq<seq<Instance>>, b: seq<seq<Instance>>)
    ensures Flatten(a + b) == Flatten(a) + Flatten(b)
    decreases |b|
  {
    if b != [] {
      var b' := b[..|b| - 1];
      assert (a + b)[..|a + b| - 1] == a + b';
      assert (a + b)[|a + b| - 1] == b[|b| - 1];
      FlattenAppend(a, b');
      calc {
        Flatten(a + b);
        Flatten(a + b') + b[|b| - 1];
        Flatten(a) + Flatten(b') + b[|b| - 1];
        Flatten(a) + (Flatten(b') + b[|b| - 1]);
        Flatten(a) + Flatten(b);
      }
    } else {
      assert a + b == a;
    }
  }

  /** How far the walk got: the items yielded so far, and the exception
      that ended it, if one did. */
  datatype Walk = Walk(kept: seq<Instance>, fault: Option<Fault>)

  /** The walk over a sequence of items, one item at a time. */
  function Scan(q: Query, items: seq<Instance>): Walk
  {
    if items == [] then Walk([], None)
    else
      var w := Scan(q, items[..|items| - 1]);
      var x := items[|items| - 1];
      if w.fault.Some? then w
      else match Admit(q, x)
        case Keep => Walk(w.kept + [x], None)
        case Skip => w
        case Fail(f) => Walk(w.kept, Some(f))
  }

  /** The reference definition of what the walk yields: the admitted items,
      in their order. */
  function Selected(q: Query, items: seq<Instance>): seq<Instance>
  {
    if items == [] then []
    else (if Admit(q, items[0]) == Keep then [items[0]] else []) + Selected(q, items[1..])
  }

  /** The selection holds exactly the admitted items. */
  lemma {:induction false} SelectedMembers(q: Query, items: seq<Instance>, x: Instance)
    ensures x in Selected(q, items) <==> x in items && Admit(q, x) == Keep
  {
    if items != [] {
      SelectedMembers(q, items[1..], x);
      assert items == [items[0]] + items[1..];
    }
  }

  lemma {:induction false} SelectedAppend(q: Query, a: seq<Instance>, x: Instance)
    ensures Selected(q, a + [x]) == Selected(q, a) + (if Admit(q, x) == Keep then [x] else [])
  {
    if a != [] {
      assert (a + [x])[1..] == a[1..] + [x];
      SelectedAppend(q, a[1..], x);
    }
  }

  /** Once the walk has raised, later items change nothing. */
  lemma {:induction false} ScanPrefixFault(q: Query, a: seq<Instance>, b: seq<Instance>)
    requires Scan(q, a).fault.Some?
    ensures Scan(q, a + b) == Scan(q, a)
    decreases |b|
  {
    if b != [] {
      assert (a + b)[..|a + b| - 1] == a + b[..|b| - 1];
      ScanPrefixFault(q, a, b[..|b| - 1]);
      assert Scan(q, a + b) == Scan(q, a + b[..|b| - 1]);
    } else {
      assert a + b == a;
    }
  }

  /** Without an exception the walk yields exactly the reference selection. */
  lemma {:induction false} ScanIsSelected(q: Query, items: seq<Instance>)
    requires forall x :: x in items ==> !Admit(q, x).Fail?
    ensures Scan(q, items) == Walk(Selected(q, items), None)
    decreases |items|
  {
    if items != [] {
      var init := items[..|items| - 1];
      ScanIsSelected(q, init);
      SelectedAppend(q, init, items[|items| - 1]);
      assert init + [items[|items| - 1]] == items;
    }
  }

  /** With an exception at item `k`, the walk has yielded the selection of
      the items before it and ends with that exception. */
  lemma ScanStopsAtFirstFault(q: Query, items: seq<Instance>, k: nat)
    requires k < |items| && Admit(q, items[k]).Fail?
    requires forall j :: 0 <= j < k ==> !Admit(q, items[j]).Fail?
    ensures Scan(q, items) == Walk(Selected(q, items[..k]), Some(Admit(q, items[k]).fault))
  {
    var pre := items[..k];
    forall x | x in pre ensures !Admit(q, x).Fail? {
      var j :| 0 <= j < k && pre[j] == x;
    }
    ScanIsSelected(q, pre);
    assert items[..k + 1][..k] == pre;
    ScanPrefixFault(q, items[..k + 1], items[k + 1..]);
    assert items[..k + 1] + items[k + 1..] == items;
  }

  // ---------------------------------------------------------------------
  // The whole listing

  function Ids(xs: seq<Instance>): (ids: seq<string>)
    ensures |ids| == |xs|
    ensures forall i :: 0 <= i < |xs| ==> ids[i] == xs[i].id
  {
    seq(|xs|, i requires 0 <= i < |xs| => xs[i].id)
  }

  predicate Distinct(s: seq<string>)
  {
    forall i, j :: 0 <= i < j < |s| ==> s[i] != s[j]
  }

  /** `len(ids) == len(set(ids))` holds exactly when no id repeats. */
  lemma {:induction false} CardinalityIffDistinct(s: seq<string>)
    ensures |(set x | x in s)| <= |s|
    ensures |(set x | x in s)| == |s| <==> Distinct(s)
    decreases |s|
  {
    if s != [] {
      var init := s[..|s| - 1];
      var last := s[|s| - 1];
      CardinalityIffDistinct(init);
      assert s == init + [last];
      assert (set x | x in s) == (set x | x in init) + {last};
      if last in init {
        var k :| 0 <= k < |init| && init[k] == last;
        assert s[k] == s[|s| - 1];
        assert (set x | x in s) == (set x | x in init);
      } else {
        DistinctSnoc(init, last);
      }
    }
  }

  /** Appending an id not yet seen keeps the ids distinct. */
  lemma DistinctSnoc(init: seq<string>, last: string)
    requires last !in init
    ensures Distinct(init + [last]) <==> Distinct(init)
  {
    var s := init + [last];
    if Distinct(init) {
      forall i, j | 0 <= i < j < |s| ensures s[i] != s[j] {
        if j == |s| - 1 { assert s[i] == init[i]; }
        else { assert s[i] == init[i] && s[j] == init[j]; }
      }
    }
    if Distinct(s) {
      forall i, j | 0 <= i < j < |init| ensures init[i] != init[j] {
        assert s[i] == init[i] && s[j] == init[j];
      }
    }
  }

  /** How the generator ends: normally, on the id-uniqueness assertion, or
      with an exception raised while reading an item. */
  datatype Ending = Completed | DuplicateIds | Raised(fault: Fault)

  /** What `ls` does: refuses before any request, or yields items and ends. */
  datatype Listing =
    | Refused(error: LsError)
    | Listed(filter: string, yielded: seq<Instance>, ending: Ending)

  function LsSpec(state: Option<string>, sels: seq<string>, pages: seq<seq<Instance>>): Listing
  {
    match QuerySpec(state, sels)
    case Err(e) => Refused(e)
    case Ok(q) =>
      var w := Scan(q, Flatten(pages));
      Listed(q.filter, w.kept,
        if w.fault.Some? then Raised(w.fault.value)
        else if Distinct(Ids(w.kept)) then Completed
        else DuplicateIds)
  }

  /** An exception in page `p` is how the whole walk ends. */
  lemma FaultEndsWalk(q: Query, pages: seq<seq<Instance>>, p: nat)
    requires p < |pages|
    requires Scan(q, Flatten(pages[..p + 1])).fault.Some?
    ensures Scan(q, Flatten(pages)) == Scan(q, Flatten(pages[..p + 1]))
  {
    FlattenAppend(pages[..p + 1], pages[p + 1..]);
    assert pages[..p + 1] + pages[p + 1..] == pages;
    ScanPrefixFault(q, Flatten(pages[..p + 1]), Flatten(pages[p + 1..]));
  }

  /** The pages up to `p` are those before it and then page `p`. */
  lemma FlattenNext(pages: seq<seq<Instance>>, p: nat)
    requires p < |pages|
    ensures Flatten(pages[..p + 1]) == Flatten(pages[..p]) + pages[p]
  {
    assert pages[..p + 1][..p] == pages[..p];
  }

  /** The walk over one more item, as `Scan` defines it. */
  lemma ScanStep(q: Query, done: seq<Instance>, x: Instance)
    requires Scan(q, done).fault.None?
    ensures Scan(q, done + [x]) == match Admit(q, x)
      case Keep => Walk(Scan(q, done).kept + [x], None)
      case Skip => Scan(q, done)
      case Fail(f) => Walk(Scan(q, done).kept, Some(f))
  {
    assert (done + [x])[..|done|] == done;
  }

  /** Item `i` of a page extends the items walked so far by one. */
  lemma PageStep(done: seq<Instance>, page: seq<Instance>, i: nat)
    requires i < |page|
    ensures done + page[..i + 1] == (done + page[..i]) + [page[i]]
    ensures (done + page[..i + 1]) + page[i + 1..] == done + page
  {
    assert page[..i + 1] == page[..i] + [page[i]];
    assert page[..i + 1] + page[i + 1..] == page;
  }

  lemma IdsAppend(xs: seq<Instance>, x: Instance)
    ensures Ids(xs + [x]) == Ids(xs) + [x.id]
  {
  }

  /** The `for item in resp['items']` loop over one page: carries on the
      walk that has reached `done` without an exception. */
  method WalkPage(q: Query, ghost done: seq<Instance>, page: seq<Instance>, yielded0: seq<Instance>, ids0: seq<string>)
    returns (yielded: seq<Instance>, ids: seq<string>, fault: Option<Fault>)
    requires Scan(q, done) == Walk(yielded0, None)
    requires ids0 == Ids(yielded0)
    ensures Scan(q, done + page) == Walk(yielded, fault)
    ensures ids == Ids(yielded)
  {
    yielded, ids := yielded0, ids0;
    assert done + page[..0] == done;
    for i := 0 to |page|
      invariant Scan(q, done + page[..i]) == Walk(yielded, None)
      invariant ids == Ids(yielded)
    {
      var item := page[i];
      PageStep(done, page, i);
      ScanStep(q, done + page[..i], item);
      var verdict := Admit(q, item);
      if verdict.Fail? {
        ScanPrefixFault(q, done + page[..i + 1], page[i + 1..]);
        return yielded, ids, Some(verdict.fault);
      }
      if verdict.Keep? {
        IdsAppend(yielded, item);
        ids := ids + [item.id];
        yielded := yielded + [item];
      }
    }
    assert page[..|page|] == page;
    fault := None;
  }

  /** The `while req` loop of `ls`: walks the pages one at a time, yielding
      the admitted items and collecting their ids, until the pages run out
      or an item raises. */
  method WalkPages(q: Query, pages: seq<seq<Instance>>) returns (yielded: seq<Instance>, ids: seq<string>, fault: Option<Fault>)
    ensures Scan(q, Flatten(pages)) == Walk(yielded, fault)
    ensures ids == Ids(yielded)
  {
    yielded, ids := [], [];
    var p := 0;
    while p < |pages|
      invariant 0 <= p <= |pages|
      invariant Scan(q, Flatten(pages[..p])) == Walk(yielded, None)
      invariant ids == Ids(yielded)
    {
      FlattenNext(pages, p);
      yielded, ids, fault := WalkPage(q, Flatten(pages[..p]), pages[p], yielded, ids);
      if fault.Some? {
        FaultEndsWalk(q, pages, p);
        return;
      }
      p := p + 1;
    }
    assert pages[..|pages|] == pages;
    fault := None;
  }

  /** `ls` as written: builds the query, walks the pages, then checks that
      no id was yielded twice. */
  method Ls(state: Option<string>, selectors: seq<string>, pages: seq<seq<Instance>>) returns (out: Listing)
    ensures out == LsSpec(state, selectors, pages)
  {
    var built := BuildQuery(state, selectors);
    if built.Err? {
      return Refused(built.error);
    }
    var q := built.value;
    var yielded, ids, fault := WalkPages(q, pages);
    if fault.Some? {
      return Listed(q.filter, yielded, Raised(fault.value));
    }
    CardinalityIffDistinct(ids);
    var unique := |(set id | id in ids)| == |ids|;
    out := Listed(q.filter, yielded, if unique then Completed else DuplicateIds);
  }

  // ---------------------------------------------------------------------
  // What the listing promises

  /** The first item of a walk that raises. */
  function FirstFault(q: Query, items: seq<Instance>): (k: nat)
    requires exists i :: 0 <= i < |items| && Admit(q, items[i]).Fail?
    ensures k < |items| && Admit(q, items[k]).Fail?
    ensures forall j :: 0 <= j < k ==> !Admit(q, items[j]).Fail?
  {
    if Admit(q, items[0]).Fail? then 0
    else
      var i :| 0 <= i < |items| && Admit(q, items[i]).Fail?;
      assert items[1..][i - 1] == items[i];
      var k := FirstFault(q, items[1..]);
      assert forall j :: 1 <= j < k + 1 ==> items[j] == items[1..][j - 1];
      1 + k
  }

  /** A walk without an exception yields the reference selection; a walk
      that raises has yielded the selection of the items before the first
      item that raises. */
  lemma ScanOutcome(q: Query, items: seq<Instance>)
    ensures Scan(q, items).fault.None? ==> Scan(q, items).kept == Selected(q, items)
    ensures Scan(q, items).fault.Some? ==>
      exists k :: && 0 <= k < |items| && Admit(q, items[k]) == Fail(Scan(q, items).fault.value)
                  && Scan(q, items).kept == Selected(q, items[..k])
                  && forall j :: 0 <= j < k ==> !Admit(q, items[j]).Fail?
  {
    if exists i :: 0 <= i < |items| && Admit(q, items[i]).Fail? {
      var k := FirstFault(q, items);
      ScanStopsAtFirstFault(q, items, k);
    } else {
      ScanIsSelected(q, items);
    }
  }

  /** Once the query is built, `ls` yields the admitted items of all pages in
      page order, and a walk that completes fails the final assertion
      exactly when two yielded items share an id. */
  lemma LsYieldsAdmittedItems(state: Option<string>, sels: seq<string>, pages: seq<seq<Instance>>)
    requires QuerySpec(state, sels).Ok?
    requires !LsSpec(state, sels, pages).ending.Raised?
    ensures LsSpec(state, sels, pages).Listed?
    ensures LsSpec(state, sels, pages).filter == QuerySpec(state, sels).value.filter
    ensures LsSpec(state, sels, pages).yielded == Selected(QuerySpec(state, sels).value, Flatten(pages))
    ensures forall x :: x in LsSpec(state, sels, pages).yielded <==>
      x in Flatten(pages) && Admit(QuerySpec(state, sels).value, x) == Keep
    ensures LsSpec(state, sels, pages).ending == DuplicateIds <==>
      exists i, j :: 0 <= i < j < |LsSpec(state, sels, pages).yielded| &&
        LsSpec(state, sels, pages).yielded[i].id == LsSpec(state, sels, pages).yielded[j].id
  {
    var q := QuerySpec(state, sels).value;
    ScanOutcome(q, Flatten(pages));
    forall x ensures x in LsSpec(state, sels, pages).yielded <==> x in Flatten(pages) && Admit(q, x) == Keep {
      SelectedMembers(q, Flatten(pages), x);
    }
  }

  /** After an item raises, `ls` has yielded exactly the admitted items
      before the first item that raises. */
  lemma LsRaisedAfterAdmittedPrefix(state: Option<string>, sels: seq<string>, pages: seq<seq<Instance>>)
    requires QuerySpec(state, sels).Ok?
    requires LsSpec(state, sels, pages).ending.Raised?
    ensures exists k :: && 0 <= k < |Flatten(pages)|
                        && Admit(QuerySpec(state, sels).value, Flatten(pages)[k]) == Fail(LsSpec(state, sels, pages).ending.fault)
                        && LsSpec(state, sels, pages).yielded == Selected(QuerySpec(state, sels).value, Flatten(pages)[..k])
  {
    ScanOutcome(QuerySpec(state, sels).value, Flatten(pages));
  }

  /** Every item `ls` yields, whether or not the walk later raises, passed
      the client-side checks. */
  lemma LsYieldsOnlyAdmitted(state: Option<string>, sels: seq<string>, pages: seq<seq<Instance>>, x: Instance)
    requires QuerySpec(state, sels).Ok?
    requires x in LsSpec(state, sels, pages).yielded
    ensures Admit(QuerySpec(state, sels).value, x) == Keep
  {
    var q := QuerySpec(state, sels).value;
    var items := Flatten(pages);
    ScanOutcome(q, items);
    if Scan(q, items).fault.Some? {
      var k :| 0 <= k < |items| && Scan(q, items).kept == Selected(q, items[..k]);
      SelectedMembers(q, items[..k], x);
    } else {
      SelectedMembers(q, items, x);
    }
  }

  /** With a state other than `all`, the filter opens with the status clause. */
  lemma FilterStartsWithStatus(state: string, sels: seq<string>)
    requires state != "all" && QuerySpec(Some(state), sels).Ok?
    ensures Clause("status", Upper(state)) <= QuerySpec(Some(state), sels).value.filter
  {
  }

  /** No clause of the filter is empty. */
  lemma ClausesNonEmpty(state: Option<string>, sels: seq<string>)
    requires QuerySpec(state, sels).Ok?
    ensures var parts := StateClauses(state).value + Select(sels).value.clauses;
      forall i :: 0 <= i < |parts| ==> parts[i] != ""
  {
    var head := StateClauses(state).value;
    var sel := Select(sels).value;
    var parts := head + sel.clauses;
    forall i | 0 <= i < |parts| ensures parts[i] != "" {
      if i < |head| {
        assert parts[i] == head[i];
      } else {
        assert parts[i] == sel.clauses[i - |head|];
        if Classify(sels[0]) == Label {
          var ps := UnpackAll(sels, '=').value;
          UnpackAllSpec(sels, '=');
          assert |ps| == |sels| > 0;
          assert LabelClauses(ps)[0] <= Join(" AND ", LabelClauses(ps));
        }
      }
    }
  }

  /** The state and the selectors contribute no clause exactly when the
      state is `all` and the selectors are none, IPs or tags. */
  lemma NoClausesIff(state: Option<string>, sels: seq<string>)
    requires QuerySpec(state, sels).Ok?
    ensures StateClauses(state).value + Select(sels).value.clauses == [] <==>
      state == Some("all") && (sels == [] || Classify(sels[0]) in {PrivateIp, PublicIp, Tag})
  {
  }

  /** The filter is empty exactly when the state is `all` and the selectors
      add no server-side clause: there are none, or they are IPs or tags. */
  lemma FilterEmptyIff(state: Option<string>, sels: seq<string>)
    requires QuerySpec(state, sels).Ok?
    ensures QuerySpec(state, sels).value.filter == "" <==>
      state == Some("all") && (sels == [] || Classify(sels[0]) in {PrivateIp, PublicIp, Tag})
  {
    var parts := StateClauses(state).value + Select(sels).value.clauses;
    ClausesNonEmpty(state, sels);
    NoClausesIff(state, sels);
    assert QuerySpec(state, sels).value.filter == Join(" AND ", parts);
    if parts != [] {
      assert parts[0] != "" && parts[0] <= Join(" AND ", parts);
    }
  }

  /** `k, v = s.split(c)` gives back the two parts `s` was made of. */
  lemma UnpackOf(k: string, v: string, c: char)
    requires c !in k && c !in v
    ensures Unpack(k + [c] + v, c) == Some((k, v))
  {
    assert Join([c], [k, v]) == k + [c] + v by {
      assert [k, v][1..] == [v];
    }
    SplitJoin([k, v], c);
  }

  /** Selectors built as `k` + separator + `v`, neither part holding the
      separator, unpack to those pairs. */
  lemma {:induction false} UnpackAllOf(pairs: seq<(string, string)>, sels: seq<string>, c: char)
    requires |sels| == |pairs|
    requires forall i :: 0 <= i < |sels| ==> c !in pairs[i].0 && c !in pairs[i].1 && sels[i] == pairs[i].0 + [c] + pairs[i].1
    ensures UnpackAll(sels, c) == Ok(pairs)
    decreases |sels|
  {
    if sels != [] {
      var n := |sels| - 1;
      UnpackAllOf(pairs[..n], sels[..n], c);
      UnpackOf(pairs[n].0, pairs[n].1, c);
      assert pairs[..n] + [pairs[n]] == pairs;
    }
  }

  /** Label selectors `k=v` become the clauses `(labels.k = v)` joined with
      ` AND `, with no parentheses around the whole. */
  lemma LabelSelectorsFilter(pairs: seq<(string, string)>, sels: seq<string>)
    requires |sels| == |pairs| > 0
    requires forall i :: 0 <= i < |sels| ==> '=' !in pairs[i].0 && '=' !in pairs[i].1 && sels[i] == pairs[i].0 + "=" + pairs[i].1
    requires Classify(sels[0]) == Label
    ensures QuerySpec(Some("all"), sels) == Ok(Query(Join(" AND ", LabelClauses(pairs)), [], [], []))
  {
    UnpackAllOf(pairs, sels, '=');
    assert Select(sels) == Ok(Selection([Join(" AND ", LabelClauses(pairs))], [], [], []));
  }

  /** The selector `env=prod` alone, with state `all`, filters on that label only. */
  lemma LabelSelectorExample()
    ensures QuerySpec(Some("all"), ["env=prod"]) == Ok(Query("(labels.env = prod)", [], [], []))
  {
    EnvProdIsLabel();
    EnvProdParts();
    EnvProdClause();
    LabelSelectorsFilter([("env", "prod")], ["env=prod"]);
  }

  /** `env=prod` is neither digits, nor a `10.` address, nor dotted-quad,
      and holds `=`: a label selector, made of `env` and `prod`, whose
      clause is `(labels.env = prod)`. */
  lemma EnvProdIsLabel()
    ensures Classify("env=prod") == Label
  {
    var s := "env=prod";
    assert !IsDigits(s) by { assert s[0] == 'e'; }
    assert !("10." <= s) by { assert s[0] == 'e'; }
    assert '=' in s by { assert s[3] == '='; }
    EnvProdNoDots();
  }

  lemma EnvProdNoDots()
    ensures Count("env=prod", '.') == 0
  {
    CountZeroIff("env=prod", '.');
  }

  lemma EnvProdParts()
    ensures "env=prod" == "env" + "=" + "prod" && '=' !in "env" && '=' !in "prod"
  {
  }

  lemma EnvProdClause()
    ensures Join(" AND ", LabelClauses([("env", "prod")])) == "(labels.env = prod)"
  {
    assert LabelClauses([("env", "prod")])[0] == Clause("labels." + "env", "prod") == "(labels.env = prod)";
  }

  /** Tag selectors `k:v` keep only the `v` parts, and every item `ls`
      yields carries all of them. */
  lemma TagSelectorsYieldTagged(pairs: seq<(string, string)>, sels: seq<string>, pages: seq<seq<Instance>>)
    requires |sels| == |pairs| > 0
    requires forall i :: 0 <= i < |sels| ==> ':' !in pairs[i].0 && ':' !in pairs[i].1 && sels[i] == pairs[i].0 + ":" + pairs[i].1
    requires Classify(sels[0]) == Tag
    ensures QuerySpec(Some("all"), sels) == Ok(Query("", TagValues(pairs), [], []))
    ensures forall x, i :: x in LsSpec(Some("all"), sels, pages).yielded && 0 <= i < |pairs| ==> pairs[i].1 in x.tags
  {
    UnpackAllOf(pairs, sels, ':');
    var q := QuerySpec(Some("all"), sels).value;
    assert q.tags == TagValues(pairs);
    forall x, i | x in LsSpec(Some("all"), sels, pages).yielded && 0 <= i < |pairs| ensures pairs[i].1 in x.tags {
      LsYieldsOnlyAdmitted(Some("all"), sels, pages, x);
      AdmitKeepIff(q, x);
      assert q.tags[i] == pairs[i].1;
    }
  }

  /** A private-IP selector yields only the instances whose first interface
      has that private IP, whatever their names or labels. */
  lemma PrivateIpSelectorYieldsThatIp(ip: string, pages: seq<seq<Instance>>)
    requires Classify(ip) == PrivateIp
    ensures QuerySpec(Some("all"), [ip]) == Ok(Query("", [], [ip], []))
    ensures forall x :: x in LsSpec(Some("all"), [ip], pages).yielded ==> FirstNetworkIP(x) == Ok(ip)
  {
    var q := QuerySpec(Some("all"), [ip]).value;
    forall x | x in LsSpec(Some("all"), [ip], pages).yielded ensures FirstNetworkIP(x) == Ok(ip) {
      LsYieldsOnlyAdmitted(Some("all"), [ip], pages, x);
      AdmitKeepIff(q, x);
    }
  }

  /** The state literal list as written: `repairing` and `stopping` are
      refused, and `None` passes the assertion only to fail on `upper()`. */
  lemma StateQuirks(sels: seq<string>)
    ensures QuerySpec(Some("repairing"), sels) == Err(BadState(Some("repairing")))
    ensures QuerySpec(Some("stopping"), sels) == Err(BadState(Some("stopping")))
    ensures QuerySpec(None, sels) == Err(NoneHasNoUpper)
  {
  }

  /** The concatenated literal is accepted as one state. */
  lemma RepairingStoppingIsOneState()
    ensures QuerySpec(Some("repairingstopping"), []) ==
      Ok(Query(Clause("status", Upper("repairingstopping")), [], [], []))
  {
  }
}
