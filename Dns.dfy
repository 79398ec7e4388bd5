/** The names `ensure.dns_a_record` derives from a domain: the managed
    zone it looks for and the fully qualified record name. The zone and
    record listings and the change polling are not part of this model. */
module Dns {
  import opened Wrappers
  import opened Strings

  /** The last two dot-separated labels (`[-2:]`), or the only one. */
  function LastTwo(labels: seq<string>): (r: seq<string>)
    requires |labels| > 0
    ensures |r| == if |labels| >= 2 then 2 else 1
    ensures r == labels[|labels| - |r|..]
  {
    if |labels| >= 2 then labels[|labels| - 2..] else labels
  }

  datatype DnsNames = DnsNames(zone: string, record: string)

  /** `'.'.join(domain.split('.')[-2:]) + '.'`. */
  function ZoneName(domain: string): string
  {
    Join(".", LastTwo(Split(domain, '.'))) + "."
  }

  /** `zone_dns` and the dotted `domain`; refused (the assertion) when the
      domain already ends with a dot. */
  function Names(domain: string): (r: Option<DnsNames>)
    ensures r.None? <==> |domain| > 0 && domain[|domain| - 1] == '.'
    ensures r.Some? ==> r.value.record == domain + "." && r.value.zone == ZoneName(domain)
  {
    if |domain| > 0 && domain[|domain| - 1] == '.' then None
    else Some(DnsNames(ZoneName(domain), domain + "."))
  }

  /** The joined last labels are a tail of the domain, cut at a dot unless
      they are the whole domain. */
  lemma {:induction false} LastLabelsAreTail(domain: string)
    ensures var z := Join(".", LastTwo(Split(domain, '.')));
      && |z| <= |domain| && domain[|domain| - |z|..] == z
      && (|z| < |domain| ==> domain[|domain| - |z| - 1] == '.')
  {
    var labels := Split(domain, '.');
    var tail := LastTwo(labels);
    var k := |labels| - |tail|;
    assert labels[k..] == tail;
    JoinSuffix(labels, k, '.');
  }

  /** The zone is a tail of the record name, cut at a dot unless it is the
      whole record. */
  lemma {:induction false} ZoneIsTailOfRecord(domain: string)
    ensures var zone := ZoneName(domain);
      var record := domain + ".";
      && |zone| <= |record|
      && record[|record| - |zone|..] == zone
      && (|zone| < |record| ==> record[|record| - |zone| - 1] == '.')
  {
    var z := Join(".", LastTwo(Split(domain, '.')));
    LastLabelsAreTail(domain);
    var record := domain + ".";
    assert record[|record| - |z| - 1..] == domain[|domain| - |z|..] + ".";
    if |z| < |domain| {
      assert record[|record| - |z| - 2] == domain[|domain| - |z| - 1];
    }
  }

  /** The zone, less its final dot, splits into the domain's last two
      labels, or its only label when the domain has no dot. */
  lemma {:induction false} ZoneLabels(domain: string)
    ensures var zone := ZoneName(domain);
      && |zone| > 0 && zone[|zone| - 1] == '.'
      && Split(zone[..|zone| - 1], '.') == LastTwo(Split(domain, '.'))
  {
    var labels := Split(domain, '.');
    var tail := LastTwo(labels);
    var k := |labels| - |tail|;
    forall i | 0 <= i < |tail| ensures '.' !in tail[i] {
      assert tail[i] == labels[k + i];
    }
    SplitJoin(tail, '.');
    var z := Join(".", tail);
    assert (z + ".")[..|z|] == z;
  }

  /** The zone has two labels exactly when the domain has a dot. */
  lemma ZoneLabelCount(domain: string)
    ensures |LastTwo(Split(domain, '.'))| == if '.' in domain then 2 else 1
  {
    CountZeroIff(domain, '.');
  }
}
