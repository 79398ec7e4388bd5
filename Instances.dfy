/** A compute instance as the compute API returns it, restricted to the
    fields the tool reads, and the helpers that read them: `ip`,
    `ip_private`, `url` and the one-line `format` used by the listing. */
module Instances {
  import opened Wrappers
  import opened Strings

  datatype AccessConfig = AccessConfig(natIP: Option<string>)

  /** `accessConfigs` is None when the key is absent from the interface. */
  datatype NetworkInterface = NetworkInterface(networkIP: Option<string>, accessConfigs: Option<seq<AccessConfig>>)

  /** `labels` and `tags` are empty when the API leaves them out
      (`get('labels', {})`, `get('tags', {}).get('items', [])`);
      `networkInterfaces` is None when that key is absent. */
  datatype Instance = Instance(
    id: string,
    name: string,
    status: string,
    machineType: string,
    zone: string,
    preemptible: bool,
    labels: seq<(string, string)>,
    tags: seq<string>,
    networkInterfaces: Option<seq<NetworkInterface>>)

  /** The Python exceptions these helpers can raise. */
  datatype Fault =
    | AssertionFailed(what: string)
    | MissingKey(key: string)
    | IndexOutOfRange(what: string)

  /** `ip(instance)`: the public address of the only access config of the only interface. */
  function Ip(x: Instance): (r: Result<string, Fault>)
    ensures r.Ok? <==>
      && x.networkInterfaces.Some? && |x.networkInterfaces.value| == 1
      && var nic := x.networkInterfaces.value[0];
         nic.accessConfigs.Some? && |nic.accessConfigs.value| == 1 && nic.accessConfigs.value[0].natIP.Some?
    ensures r.Ok? ==> Some(r.value) == x.networkInterfaces.value[0].accessConfigs.value[0].natIP
  {
    if x.networkInterfaces.None? then Err(MissingKey("networkInterfaces"))
    else if |x.networkInterfaces.value| != 1 then Err(AssertionFailed("one network interface"))
    else
      var nic := x.networkInterfaces.value[0];
      if nic.accessConfigs.None? then Err(MissingKey("accessConfigs"))
      else if |nic.accessConfigs.value| != 1 then Err(AssertionFailed("one access config"))
      else if nic.accessConfigs.value[0].natIP.None? then Err(MissingKey("natIP"))
      else Ok(nic.accessConfigs.value[0].natIP.value)
  }

  /** `ip_private(instance)`: the private address of the only interface. */
  function IpPrivate(x: Instance): (r: Result<string, Fault>)
    ensures r.Ok? <==>
      x.networkInterfaces.Some? && |x.networkInterfaces.value| == 1 && x.networkInterfaces.value[0].networkIP.Some?
    ensures r.Ok? ==> Some(r.value) == x.networkInterfaces.value[0].networkIP
  {
    if x.networkInterfaces.None? then Err(MissingKey("networkInterfaces"))
    else if |x.networkInterfaces.value| != 1 then Err(AssertionFailed("one network interface"))
    else if x.networkInterfaces.value[0].networkIP.None? then Err(MissingKey("networkIP"))
    else Ok(x.networkInterfaces.value[0].networkIP.value)
  }

  /** `url(obj)`: an `insert` answer carries a non-empty `targetLink`, a
      `get` answer only a `selfLink`; the first truthy of the two wins, and a
      missing `selfLink` then raises. */
  function Url(targetLink: Option<string>, selfLink: Option<string>): (r: Result<string, Fault>)
    ensures targetLink.Some? && targetLink.value != "" ==> r == Ok(targetLink.value)
    ensures (targetLink.None? || targetLink.value == "") ==>
      (if selfLink.Some? then r == Ok(selfLink.value) else r == Err(MissingKey("selfLink")))
  {
    if targetLink.Some? && targetLink.value != "" then Ok(targetLink.value)
    else if selfLink.Some? then Ok(selfLink.value)
    else Err(MissingKey("selfLink"))
  }

  /** The colour `format` paints the name with. */
  datatype Colour = Green | Cyan | Red

  function StatusColour(status: string): (c: Colour)
    ensures c == Green <==> Lower(status) == "running"
    ensures c == Cyan <==> Lower(status) == "provisioning" || Lower(status) == "staging"
    ensures c == Red <==> Lower(status) !in ["running", "provisioning", "staging"]
  {
    var s := Lower(status);
    if s == "running" then Green
    else if s == "provisioning" || s == "staging" then Cyan
    else Red
  }

  /** `labels.get(k)` for a dict with insertion-ordered entries. Labels map
      strings to strings, so they are kept as string pairs rather than as
      the `Json` entries that `Json.Get` reads; this is that lookup on them. */
  function LabelGet(labels: seq<(string, string)>, k: string): (r: Option<string>)
    ensures r.None? <==> forall i :: 0 <= i < |labels| ==> labels[i].0 != k
    ensures r.Some? ==> (k, r.value) in labels
  {
    if labels == [] then None
    else if labels[0].0 == k then Some(labels[0].1)
    else LabelGet(labels[1..], k)
  }

  predicate SortedByKey(labels: seq<(string, string)>)
  {
    forall i :: 0 < i < |labels| ==> LexLe(labels[i - 1].0, labels[i].0)
  }

  /** One step of the stable sort behind `sorted(labels.items(), key=...)`. */
  function InsertByKey(p: (string, string), s: seq<(string, string)>): (r: seq<(string, string)>)
    requires SortedByKey(s)
    ensures SortedByKey(r)
    ensures multiset(r) == multiset(s) + multiset{p}
    ensures |r| > 0 && (r[0] == p || (s != [] && r[0] == s[0]))
  {
    if s == [] then [p]
    else if LexLe(p.0, s[0].0) then [p] + s
    else
      var t := InsertByKey(p, s[1..]);
      LexLeTotal(p.0, s[0].0);
      assert s == [s[0]] + s[1..];
      [s[0]] + t
  }

  /** `sorted(labels.items(), key=lambda x: x[0])`. */
  function SortByKey(labels: seq<(string, string)>): (r: seq<(string, string)>)
    ensures SortedByKey(r)
    ensures multiset(r) == multiset(labels)
  {
    if labels == [] then []
    else
      assert labels == [labels[0]] + labels[1..];
      InsertByKey(labels[0], SortByKey(labels[1..]))
  }

  /** `format` leaves out the `name` and `local-user` labels. */
  predicate Shown(p: (string, string))
  {
    p.0 != "name" && p.0 != "local-user"
  }

  /** The shown labels, in the given order. */
  function ShownLabels(labels: seq<(string, string)>): (r: seq<(string, string)>)
    ensures |r| <= |labels|
  {
    if labels == [] then []
    else (if Shown(labels[0]) then [labels[0]] else []) + ShownLabels(labels[1..])
  }

  /** Each shown label is kept as often as it occurs, and no other label is. */
  lemma {:induction false} ShownLabelsCount(labels: seq<(string, string)>, p: (string, string))
    ensures multiset(ShownLabels(labels))[p] == if Shown(p) then multiset(labels)[p] else 0
  {
    if labels != [] {
      ShownLabelsCount(labels[1..], p);
      assert labels == [labels[0]] + labels[1..];
    }
  }

  /** The filter keeps order: it distributes over concatenation. */
  lemma {:induction false} ShownLabelsAppend(a: seq<(string, string)>, b: seq<(string, string)>)
    ensures ShownLabels(a + b) == ShownLabels(a) + ShownLabels(b)
  {
    if a != [] {
      assert (a + b)[1..] == a[1..] + b;
      ShownLabelsAppend(a[1..], b);
    } else {
      assert a + b == b;
    }
  }

  /** In a list sorted by key, every shown label's key is at least the
      first label's key. */
  lemma {:induction false} ShownFirstBound(labels: seq<(string, string)>, x: string)
    requires SortedByKey(labels) && |labels| > 0 && LexLe(x, labels[0].0)
    requires ShownLabels(labels) != []
    ensures LexLe(x, ShownLabels(labels)[0].0)
  {
    if !Shown(labels[0]) {
      LexLeTrans(x, labels[0].0, labels[1].0);
      ShownFirstBound(labels[1..], x);
    }
  }

  /** Leaving labels out of a list sorted by key keeps it sorted. */
  lemma {:induction false} ShownLabelsSorted(labels: seq<(string, string)>)
    requires SortedByKey(labels)
    ensures SortedByKey(ShownLabels(labels))
  {
    if labels != [] {
      var rest := ShownLabels(labels[1..]);
      ShownLabelsSorted(labels[1..]);
      if Shown(labels[0]) && rest != [] {
        ShownFirstBound(labels[1..], labels[0].0);
        var r := [labels[0]] + rest;
        forall i | 0 < i < |r| ensures LexLe(r[i - 1].0, r[i].0) {
          if i > 1 { assert r[i - 1] == rest[i - 2] && r[i] == rest[i - 1]; }
        }
      }
    }
  }

  /** `f'{k}={v}'`. */
  function Item(p: (string, string)): string
  {
    p.0 + "=" + p.1
  }

  /** The `k=v` items, in the given order, of the labels that are shown. */
  function ShownPairs(labels: seq<(string, string)>): (r: seq<string>)
    ensures |r| == 0 <==> forall i :: 0 <= i < |labels| ==> !Shown(labels[i])
    ensures forall j :: 0 <= j < |r| ==> exists i :: 0 <= i < |labels| && Shown(labels[i]) && r[j] == labels[i].0 + "=" + labels[i].1
  {
    if labels == [] then []
    else
      var rest := ShownPairs(labels[1..]);
      if Shown(labels[0]) then
        var r := [labels[0].0 + "=" + labels[0].1] + rest;
        assert forall j :: 1 <= j < |r| ==> r[j] == rest[j - 1];
        r
      else rest
  }

  /** Each label rendered as its `k=v` item, in order. */
  function Items(labels: seq<(string, string)>): (r: seq<string>)
    ensures |r| == |labels|
  {
    seq(|labels|, j requires 0 <= j < |labels| => Item(labels[j]))
  }

  /** The items are exactly the shown labels rendered one by one, in order. */
  lemma {:induction false} ShownPairsItems(labels: seq<(string, string)>)
    ensures ShownPairs(labels) == Items(ShownLabels(labels))
  {
    if labels != [] {
      ShownPairsItems(labels[1..]);
      if Shown(labels[0]) {
        var rest := ShownLabels(labels[1..]);
        assert ShownLabels(labels) == [labels[0]] + rest;
        assert Items([labels[0]] + rest) == [Item(labels[0])] + Items(rest);
      }
    }
  }

  /** The labels column: shown labels as `k=v`, by key, comma-joined; `-` when none. */
  function LabelsColumn(labels: seq<(string, string)>): string
  {
    var joined := Join(",", ShownPairs(SortByKey(labels)));
    if joined != "" then joined else "-"
  }

  /** The tags column: `tags=` and the comma-joined tags, or `-`. */
  function TagsColumn(tags: seq<string>): string
  {
    var joined := Join(",", tags);
    if joined != "" then "tags=" + joined else "-"
  }

  /** The `name` label, or `missing-name-label:` and the instance name. */
  function NameColumn(x: Instance): string
  {
    match LabelGet(x.labels, "name")
    case Some(n) => n
    case None => "missing-name-label:" + x.name
  }

  /** `'preemptible' if ... else 'ondemand'`. */
  function Scheduling(preemptible: bool): (s: string)
    ensures s == "preemptible" <==> preemptible
  {
    if preemptible then "preemptible"
    else
      assert "ondemand"[0] != "preemptible"[0];
      "ondemand"
  }

  /** The eight columns of `format`, in the order of `format_header`. */
  function Columns(x: Instance): (cols: seq<string>)
    ensures |cols| == 8
  {
    [ NameColumn(x),
      LastSegment(x.machineType, '/'),
      Lower(x.status),
      x.id,
      Scheduling(x.preemptible),
      LabelsColumn(x.labels),
      TagsColumn(x.tags),
      LastSegment(x.zone, '/') ]
  }

  /** The first column is the `name` label, or `missing-name-label:` and
      the instance name when there is none. */
  lemma ColumnsName(x: Instance)
    ensures LabelGet(x.labels, "name").Some? ==> Columns(x)[0] == LabelGet(x.labels, "name").value
    ensures LabelGet(x.labels, "name").None? ==> Columns(x)[0] == "missing-name-label:" + x.name
  {
  }

  /** The machine-type and zone columns are the tails of those URLs after
      their last `/`: they hold no `/`, and they are the whole URL or follow
      a `/`. */
  lemma ColumnsTails(x: Instance)
    ensures var mt := Columns(x)[1];
      && '/' !in mt && |mt| <= |x.machineType| && x.machineType[|x.machineType| - |mt|..] == mt
      && (|mt| == |x.machineType| || x.machineType[|x.machineType| - |mt| - 1] == '/')
    ensures var z := Columns(x)[7];
      && '/' !in z && |z| <= |x.zone| && x.zone[|x.zone| - |z|..] == z
      && (|z| == |x.zone| || x.zone[|x.zone| - |z| - 1] == '/')
  {
    var mt := LastSegment(x.machineType, '/');
    var z := LastSegment(x.zone, '/');
    assert Columns(x)[1] == mt && Columns(x)[7] == z;
  }

  /** The middle columns: the lower-cased status, the id, the scheduling
      kind, and the labels and tags columns. */
  lemma ColumnsFields(x: Instance)
    ensures var cols := Columns(x);
      && cols[2] == Lower(x.status) && cols[3] == x.id
      && (cols[4] == "preemptible" <==> x.preemptible)
      && cols[5] == LabelsColumn(x.labels) && cols[6] == TagsColumn(x.tags)
  {
    assert Columns(x)[2] == Lower(x.status);
    assert Columns(x)[4] == Scheduling(x.preemptible);
    assert Columns(x)[5] == LabelsColumn(x.labels);
    assert Columns(x)[6] == TagsColumn(x.tags);
  }

  /** The line `format` prints, and the colour its first column is painted with. */
  datatype Row = Row(colour: Colour, text: string)

  function Format(x: Instance): (r: Row)
    ensures r.colour == StatusColour(x.status)
    ensures Columns(x)[0] <= r.text
  {
    Row(StatusColour(x.status), Join(" ", Columns(x)))
  }

  /** When no column holds a space, the line splits back into its eight columns. */
  lemma FormatSplitsIntoColumns(x: Instance)
    requires forall i :: 0 <= i < 8 ==> ' ' !in Columns(x)[i]
    ensures Split(Format(x).text, ' ') == Columns(x)
  {
    SplitJoin(Columns(x), ' ');
  }

  /** The labels column is `-` exactly when only `name`/`local-user` labels exist. */
  lemma {:induction false} LabelsColumnDashIff(labels: seq<(string, string)>)
    ensures LabelsColumn(labels) == "-" <==> forall i :: 0 <= i < |labels| ==> !Shown(labels[i])
  {
    var sorted := SortByKey(labels);
    var pairs := ShownPairs(sorted);
    var joined := Join(",", pairs);
    if pairs != [] {
      var p0 := pairs[0];
      var i :| 0 <= i < |sorted| && Shown(sorted[i]) && p0 == sorted[i].0 + "=" + sorted[i].1;
      assert p0[|sorted[i].0|] == '=';
      assert '=' in p0;
      assert joined != "-" by {
        if |pairs| == 1 {
          assert joined == p0;
        } else {
          assert |joined| >= |p0| + 1;
          assert |p0| >= 1;
        }
      }
      assert joined != "" by { assert p0 <= joined; assert |p0| > 0; }
      assert sorted[i] in multiset(labels);
      var k :| 0 <= k < |labels| && labels[k] == sorted[i];
    } else {
      forall k | 0 <= k < |labels| ensures !Shown(labels[k]) {
        assert labels[k] in multiset(sorted);
        var j :| 0 <= j < |sorted| && sorted[j] == labels[k];
      }
    }
  }

  /** The labels column lists the shown labels sorted by key, each as
      often as it occurs and no other label, as `k=v` items joined with
      commas; it is `-` when no label is shown. */
  lemma LabelsColumnByKey(labels: seq<(string, string)>)
    ensures var s := ShownLabels(SortByKey(labels));
      && SortedByKey(s)
      && (forall p :: multiset(s)[p] == if Shown(p) then multiset(labels)[p] else 0)
      && ShownPairs(SortByKey(labels)) == Items(s)
      && (s == [] <==> LabelsColumn(labels) == "-")
      && (s != [] ==> LabelsColumn(labels) == Join(",", ShownPairs(SortByKey(labels))))
  {
    var sorted := SortByKey(labels);
    var s := ShownLabels(sorted);
    ShownLabelsSorted(sorted);
    forall p ensures multiset(s)[p] == if Shown(p) then multiset(labels)[p] else 0 {
      ShownLabelsCount(sorted, p);
    }
    ShownPairsItems(sorted);
    var pairs := ShownPairs(sorted);
    if s != [] {
      var first := Item(s[0]);
      assert pairs[0] == first;
      assert first[|s[0].0|] == '=';
      assert first <= Join(",", pairs);
    }
  }

  /** The tags column is `-` exactly when the joined tags are empty, that is
      when there are no tags or a single empty one; otherwise it is `tags=`
      followed by the tags. */
  lemma {:induction false} TagsColumnDashIff(tags: seq<string>)
    ensures TagsColumn(tags) == "-" <==> tags == [] || tags == [""]
    ensures TagsColumn(tags) != "-" ==> TagsColumn(tags) == "tags=" + Join(",", tags)
  {
    if |tags| >= 2 {
      assert |Join(",", tags)| >= 1;
    }
  }
}
