# cli-gcp core, modelled in Dafny

`cli_gcp.py` is a thin command-line layer over Google Cloud's compute and
DNS client libraries. This project models the parts of it that decide and
build things, with every remote call replaced by an input:

- `ls` lists the instances of a zone. The first selector decides how all
  selectors are read (instance id, private IP, public IP, name, label, tag).
  Ids, names and labels become a server-side filter string built from
  `(field = value)` clauses. Tags and IPs are checked on each item while the
  result pages are walked. Once every page is walked, the yielded ids must
  be unique. The pages the API would return are given as a sequence of
  pages.
- `_ensure` gets a named resource. It creates the resource when the get
  answers 404, re-raises any other get error, and validates every key of
  the desired config against the resource when the get succeeds.
  The get and insert calls are given as outcomes. `schema.validate` is an
  opaque predicate. A name-to-resource store stands in for the API when
  stating idempotence.
- `ensure.firewall_allow` builds a firewall rule body and a `schemafy` step
  that rewrites it, one dict assignment at a time, into what an existing
  rule is validated against.
- `ensure.backend_has_instance_group` appends the instance group's backend
  when no backend has its group. `ensure.backend_hasnt_instance_group`
  removes every backend of the group, keeping the order.
- `ensure.dns_a_record` derives the managed zone name and the record name
  from a domain.
- The pure helpers `ip`, `ip_private`, `url` and `format`.

Modules:
- `Wrappers`: Option and Result.
- `Strings`: the `str` operations used (`join`, one-character `split`,
  `count`, `isdigit`, `upper`/`lower`, `str(n)`, ordering).
- `Json`: Python values and insertion-ordered dicts.
- `Instances`: the instance record and its helpers.
- `Listing`: `ls`.
- `Ensure`: `_ensure`.
- `Firewall`, `Backends`, `Dns`.

The source's imperative parts are Dafny methods. `ls`'s filter building is
`BuildQuery`, its page walk is `WalkPages`, and the whole generator is `Ls`.
The validation loop of `_ensure` is `RunEnsure`, the `for ... else` of
`backend_has_instance_group` is `HasInstanceGroup`, and `schemafy` is
`Schemafy`. Each method is proved equal to a specification function, and
the properties are proved about those functions.

Where the documented behaviour and the code differ, the model follows the
code:
- `_ensure` raises on the first key that fails validation, because
  `schema.validate` raises (`cli_gcp.py:207-209`). It does not report drift
  per field and then return the resource. `EnsureSpec` gives `Invalid` for
  the first failing key in config order.
- The `else` of the `for` loop in `backend_has_instance_group`
  (`cli_gcp.py:361-368`) is reachable. It runs whenever the loop finds no
  backend of the group, because `break` is taken only on a match.
  `HasAppendsIffAbsent` states exactly when it runs.

## Model

| member | source | states |
|---|---|---|
| Listing.Classify | cli_gcp.py:120-152 | The first selector alone picks the kind, in the source's order of tests; a selector that reaches the tag branch holds `:` and no `=`, so the unknown-selector exit cannot be reached |
| Listing.Unpack | cli_gcp.py:142 | `k, v = s.split(c)` succeeds exactly when `s` holds the separator once, and the two parts rebuild `s` without the separator |
| Listing.UnpackAllSpec | cli_gcp.py:140-149 | Unpacking every selector succeeds iff each holds the separator exactly once, giving each selector's parts in order; otherwise it fails on the first selector that does not |
| Listing.UnpackAllPrefixErr | cli_gcp.py:140-149 | A selector that fails to unpack fails the whole loop, whatever follows it |
| Listing.UnpackAllOf | cli_gcp.py:140-149 | Selectors written as `k` + separator + `v` unpack to exactly those pairs |
| Listing.OrFilter | cli_gcp.py:122-125 | The id and name loops build `((f = s1) OR (f = s2) ...)`, one clause per selector in order |
| Listing.LabelFilter | cli_gcp.py:140-144 | The label loop gives the `(labels.k = v)` clauses joined with ` AND ` and no outer parentheses, or the first selector that does not unpack |
| Listing.TagFilter | cli_gcp.py:146-149 | The tag loop keeps only the part after `:` of each selector, in order, or fails on the first selector that does not unpack |
| Listing.BuildQuery | cli_gcp.py:113-153 | The state assertion, the status clause, the selector branches and the final ` AND ` join give exactly `QuerySpec`: the filter and the tags, private IPs and public IPs checked client-side |
| Listing.StateQuirks | cli_gcp.py:113-116 | `repairing` and `stopping` are refused by the assertion; `None` passes it and then fails on `upper()` |
| Listing.RepairingStoppingIsOneState | cli_gcp.py:113-116 | The concatenated literal `repairingstopping` is accepted and filtered as one status |
| Listing.FilterStartsWithStatus | cli_gcp.py:115-116 | With any accepted state other than `all`, the filter opens with `(status = STATE)` in upper case |
| Listing.ClausesNonEmpty | cli_gcp.py:114-153 | Every clause the state and the selectors contribute to the filter is non-empty |
| Listing.FilterEmptyIff | cli_gcp.py:114-153 | The filter is empty exactly when the state is `all` and the selectors are absent or are IPs or tags |
| Listing.LabelSelectorsFilter | cli_gcp.py:139-145 | Label selectors `k=v` with state `all` make the filter the ` AND `-joined `(labels.k = v)` clauses and nothing is checked client-side |
| Listing.LabelSelectorExample | cli_gcp.py:139-145 | `env=prod` with state `all` gives the filter `(labels.env = prod)` |
| Listing.EnvProdIsLabel | cli_gcp.py:120-139 | `env=prod` holds no digit-only text, no `10.` prefix and no three dots, but an `=`, so it is read as a label selector |
| Listing.EnvProdClause | cli_gcp.py:140-145 | The pair `env`, `prod` gives the clause `(labels.env = prod)` |
| Listing.AdmitKeepIff | cli_gcp.py:158-169 | An item is yielded iff it carries every selected tag, its first interface's private IP is selected when private IPs are, and its first access config has a public IP that is selected when public IPs are |
| Listing.SelectedMembers | cli_gcp.py:158-171 | The reference selection holds exactly the items that pass the client-side checks |
| Listing.SelectedAppend | cli_gcp.py:158-171 | Yielded items keep page order: one more item appends it iff it is admitted |
| Listing.ScanPrefixFault | cli_gcp.py:156-172 | After an item raises, later items change nothing |
| Listing.ScanIsSelected | cli_gcp.py:156-172 | When no item raises, the walk yields exactly the admitted items in order |
| Listing.ScanStopsAtFirstFault | cli_gcp.py:156-172 | The walk raises the exception of the first item that raises, having yielded the admitted items before it |
| Listing.ScanOutcome | cli_gcp.py:156-172 | The walk either yields all admitted items or stops at some raising item after yielding the admitted items before it |
| Listing.WalkPage | cli_gcp.py:158-171 | The `for item` loop over one page continues the walk over the items seen so far: it yields what `Scan` yields over them and the page, records the ids in order, and stops at the first exception |
| Listing.FaultEndsWalk | cli_gcp.py:156-172 | An exception raised in some page ends the walk over all pages |
| Listing.WalkPages | cli_gcp.py:155-172 | The `while req` loop over pages and items yields what `Scan` of the flattened pages yields, records their ids in order, and stops at the first exception |
| Listing.CardinalityIffDistinct | cli_gcp.py:173 | `len(ids) == len(set(ids))` holds exactly when no id repeats |
| Listing.Ls | cli_gcp.py:111-173 | The whole generator: refused before any request, or the filter, the yielded items and how the walk ends (completed, duplicate ids, raised) as `LsSpec` |
| Listing.LsYieldsAdmittedItems | cli_gcp.py:156-173 | Unless an item raises, `ls` yields exactly the admitted items of all pages in page order, and the duplicate-id assertion fails iff two yielded items share an id |
| Listing.LsRaisedAfterAdmittedPrefix | cli_gcp.py:156-172 | When the walk raises, what was yielded is the admitted items before the raising item |
| Listing.LsYieldsOnlyAdmitted | cli_gcp.py:158-171 | Every yielded item passed the client-side checks |
| Listing.TagSelectorsYieldTagged | cli_gcp.py:146-161 | Tag selectors `k:v` leave the filter empty, keep the `v` parts, and every yielded item carries all of them |
| Listing.PrivateIpSelectorYieldsThatIp | cli_gcp.py:127-163 | A private-IP selector leaves the filter empty and yields only items whose first interface has that IP |
| Instances.Ip | cli_gcp.py:46-49 | Succeeds exactly with one interface holding one access config that has `natIP`, and returns it |
| Instances.IpPrivate | cli_gcp.py:51-53 | Succeeds exactly with one interface that has `networkIP`, and returns it |
| Instances.Url | cli_gcp.py:79-80 | `targetLink` when truthy, else `selfLink`, else a KeyError |
| Instances.LabelGet | cli_gcp.py:101 | `labels.get(k)` is absent iff no label has key `k`, and otherwise a value stored under `k` |
| Instances.SortByKey | cli_gcp.py:106 | The labels sorted by key, as a permutation of the labels |
| Instances.ShownPairs | cli_gcp.py:106 | The `k=v` items are empty iff every label is `name` or `local-user`, and each item comes from a shown label; `ShownPairsItems` proves they are exactly the shown labels in order |
| Instances.ShownLabelsCount | cli_gcp.py:106 | The `if k not in {'name', 'local-user'}` filter keeps each shown label exactly as often as it occurs and drops every other label |
| Instances.ShownLabelsAppend | cli_gcp.py:106 | The filter keeps order: it distributes over concatenation |
| Instances.ShownFirstBound | cli_gcp.py:106 | In a list sorted by key, the first kept label's key is at least any bound on the first label's key |
| Instances.ShownLabelsSorted | cli_gcp.py:106 | Filtering a list sorted by key leaves it sorted by key |
| Instances.ShownPairsItems | cli_gcp.py:106 | The `k=v` items are exactly the kept labels, each rendered as `k=v`, in order |
| Instances.LabelsColumnByKey | cli_gcp.py:106 | The labels column is the comma-joined `k=v` items of the shown labels sorted by key, each shown label as often as it occurs and no other label; it is `-` exactly when no label is shown |
| Instances.LabelsColumnDashIff | cli_gcp.py:106 | The labels column is `-` exactly when no label other than `name`/`local-user` exists |
| Instances.TagsColumnDashIff | cli_gcp.py:95-107 | The tags column is `-` exactly when the tags are none or a single empty one, and otherwise `tags=` and the comma-joined tags |
| Instances.StatusColour | cli_gcp.py:99-101 | The name is painted green exactly for a `running` status, cyan exactly for `provisioning` or `staging`, red for every other status, all compared in lower case |
| Instances.Scheduling | cli_gcp.py:105 | The kind column reads `preemptible` exactly when the instance is preemptible |
| Instances.Columns | cli_gcp.py:98-108 | `format` prints eight columns |
| Instances.ColumnsName | cli_gcp.py:101 | The first column is the `name` label, or `missing-name-label:` followed by the instance name when there is none |
| Instances.ColumnsTails | cli_gcp.py:102-108 | The machine-type and zone columns are the tails of those URLs after their last `/`: they hold no `/`, and each is the whole URL or follows a `/` |
| Instances.ColumnsFields | cli_gcp.py:103-107 | The status column is lower-cased, then come the id, the kind (`preemptible` exactly when preemptible), the labels column and the tags column |
| Instances.Format | cli_gcp.py:94-109 | The name column is painted with the status colour, and the line opens with the name column |
| Instances.FormatSplitsIntoColumns | cli_gcp.py:98-109 | When no column holds a space, the line splits back into the eight columns: name (or `missing-name-label:`), machine type, status, id, kind, labels, tags, zone |
| Strings.LastSegment | cli_gcp.py:102 | `split('/')[-1]` is the tail of the string after its last `/`, holding no `/` |
| Strings.SplitJoin | cli_gcp.py:142 | Splitting what was joined on a separator none of the parts holds gives the parts back |
| Strings.DecimalRoundTrip | cli_gcp.py:222 | `str(port)` reads back as the port |
| Ensure.FirstInvalid | cli_gcp.py:207-209 | The validation loop stops at the first key, in config order, that fails to validate, every earlier key having passed |
| Ensure.RunEnsure | cli_gcp.py:195-212 | `_ensure` returns or raises as `EnsureSpec`, and calls `insert` exactly once when the get answered 404 and never otherwise |
| Ensure.EnsureBranches | cli_gcp.py:195-212 | Created exactly on a 404 followed by a successful insert, with the insert's answer; existing exactly when the get succeeded and every schemafied key validates against the resafied resource, returning the fetched resource; other get failures propagate |
| Ensure.EnsureIdempotent | cli_gcp.py:195-212 | Against a store, a second call with the same config finds the resource, inserts nothing and leaves the store unchanged |
| Ensure.EnsureCreatedThenExisting | cli_gcp.py:195-212 | When the first call creates the resource, the second returns it as existing, for identity `schemafy`/`resafy` and a `validate` that accepts a value against itself |
| Firewall.PortList | cli_gcp.py:222 | No port or port 0 gives no ports, otherwise the one-element list of its decimal string |
| Firewall.AllowConfig | cli_gcp.py:215-224 | The body exists iff the direction is `ingress` or `egress`, with the source's keys in the source's order |
| Firewall.AllowConfigDistinct | cli_gcp.py:217-224 | The body is a dict: no key repeats |
| Firewall.AllowConfigFields | cli_gcp.py:217-224 | The body holds the upper-cased direction, the description, the priority, the ranges, one allowed rule with the protocol and port list, the target tags and the name |
| Firewall.AllowConfigSchemafiable | cli_gcp.py:217-231 | The body has everything `schemafy` reads: ranges, a non-empty rule list whose first rule is a dict, and target tags |
| Firewall.PortsSchema | cli_gcp.py:231 | Truthy ports stay; absent or empty ports become `(':optional', list, [])` |
| Firewall.TagsSchema | cli_gcp.py:230 | Truthy target tags stay; empty ones become `None` |
| Firewall.Schemafy | cli_gcp.py:227-232 | The four dict assignments of `schemafy`, in order, give `Schemafied` |
| Firewall.SchemafiedKeys | cli_gcp.py:227-232 | `schemafy` keeps every key in its place and the result is still a dict |
| Firewall.SchemafiedFields | cli_gcp.py:228-231 | Ranges and rules become tuples, the first rule's ports are schemafied, target tags become `None` when empty |
| Firewall.SchemafiedOther | cli_gcp.py:227-232 | Every key `schemafy` does not assign reads as before |
| Firewall.SchemafiedAllowConfig | cli_gcp.py:215-232 | For the built body, ranges are validated as a tuple and the single rule keeps its port list or may omit its ports when none was given |
| Firewall.SchemafiedAllowTags | cli_gcp.py:215-232 | For the built body, no target tags are validated as `None`; direction and name as built |
| Backends.FirstOfGroup | cli_gcp.py:361-367 | The loop stops at the first backend of the group, or raises at the first backend with no `group` before it, or runs out |
| Backends.HasInstanceGroup | cli_gcp.py:358-368 | The `for ... else` validates the first backend of the group, or raises on a backend without a group, or appends `{group, balancingMode}`: exactly `HasSpec` |
| Backends.HasAppendsIffAbsent | cli_gcp.py:358-368 | The backend is appended iff every backend has a group and none is the instance group's; the sent list is the old one plus that backend |
| Backends.FirstOfGroupAppend | cli_gcp.py:361-367 | When the loop runs through a list, on that list plus one backend it stops where that backend alone would stop it |
| Backends.AppendedIsFirst | cli_gcp.py:361-369 | After the append, the loop stops at the appended backend |
| Backends.ConfigValidates | cli_gcp.py:358-364 | The appended `{group, balancingMode}` passes validation against itself, key by key, when `validate` accepts a value against itself |
| Backends.HasIsIdempotent | cli_gcp.py:358-368 | After an append, running `has` again finds the appended backend and sends no update |
| Backends.Kept | cli_gcp.py:391 | The comprehension never grows the list |
| Backends.KeptLengthIff | cli_gcp.py:391-392 | The comprehension keeps the length exactly when no backend is in the group, which is when no update is sent |
| Backends.KeptMember | cli_gcp.py:391 | The comprehension keeps exactly the backends outside the group |
| Backends.KeptAppend | cli_gcp.py:391 | The comprehension keeps order: it distributes over concatenation |
| Backends.KeptNone | cli_gcp.py:391 | A list with no backend of the group is kept whole |
| Backends.Hasnt | cli_gcp.py:380-403 | A 404 on the manager get means nothing to do, any other HTTP error is re-raised with its status, and a sent update always holds fewer backends than before |
| Backends.HasntRemovesIffPresent | cli_gcp.py:380-395 | An update is sent iff the manager exists, every backend has a group and some backend is in the group; it sends the list without the group's backends |
| Backends.HasntUndoesHas | cli_gcp.py:358-395 | `hasnt` after `has` appended restores the list `has` started from |
| Backends.HasAfterHasnt | cli_gcp.py:358-395 | `has` after `hasnt` removed the group's backends appends the group's backend to what was left |
| Dns.LastTwo | cli_gcp.py:255 | `[-2:]`: the last two labels, or the only one |
| Dns.Names | cli_gcp.py:254-256 | Refused iff the domain ends with a dot; the record name is the domain plus a dot |
| Dns.LastLabelsAreTail | cli_gcp.py:255 | The joined last two labels are a tail of the domain, cut at a dot unless they are the whole domain |
| Dns.ZoneIsTailOfRecord | cli_gcp.py:254-256 | The zone name is a tail of the record name, cut at a dot unless it is the whole record |
| Dns.ZoneLabels | cli_gcp.py:255 | The zone name, less its final dot, splits into the domain's last two labels |
| Dns.ZoneLabelCount | cli_gcp.py:255 | The zone has two labels exactly when the domain has a dot, one otherwise |

## Left out

- The Google API calls (`compute()`, `compute_beta()`, `dns_client()`, `.execute()`, `list_next`, the DNS change polling) are foreign network clients. They are replaced by given pages, get and insert outcomes, and backend lists.
- `util.retry.retry` and its backoff are timing-based, and their source is not part of this model.
- The `cached.func` memoisation of clients, `inside_data_center` and `smart_ip` are an HTTP probe plus process-global caching.
- `ssl_cert` and `ssl_cert_domain` shell out to openssl and read temporary files.
- `setup()` is process-boundary logging and exit handling.
- The colour wrappers are kept only as the colour tag of `Row`, and the `yaml.dump`/`logging` output is left out.
- `schema.validate` is a foreign library, modelled as an opaque predicate on the desired value and the value found.
- The other `ensure.*` wrappers only pass configuration literals to `_ensure`, and `_ensure` is modelled generically. `firewall_deny` differs from `firewall_allow` only in the key `denied` and a shorter `schemafy`.
- The zone and record loop of `dns_a_record` calls the DNS API. Only the name derivation is modelled.
- The autoscaler's float utilisation is only a configuration literal.
- The `project` and `zone` parameters only reach the API calls.
- Strings are sequences of characters. `isdigit`, `upper` and `lower` are modelled over ASCII only.
- Instance, access-config and backend records are modelled with the fields the code reads. An absent `id`, `status`, `machineType`, `zone` or `scheduling.preemptible`, an instance without `name`, and an IGM answer without `instanceGroup` are not modelled. Python evaluates the `missing-name-label:` default of `format` eagerly, so `format` raises on an instance without `name` even when it has a `name` label; the model always has a `name`.
- Firewall.AllowConfig: the port is a natural number or absent, and the target tags are a list. A negative or string port and `network_tags=None` are not modelled.
- Ensure.RunEnsure: `schemafy` and `resafy` are total functions, so an exception raised inside them is not modelled.
- The `verbose` flag only controls logging.
- The `@schema.check(yields=dict)` decorator on `ls` and its argument annotations (`state: str`, `selectors: [str]`) belong to a foreign library that is not part of this model. `Listing.StateQuirks` assumes that this check lets `state=None` through to the state assertion.
- `ls` is a generator. The model describes a caller that drains it: `Listing.LsSpec` and `Listing.Ls` run the state assertion, the query building, every page and the final id check. A caller that stops early never reaches the id-uniqueness assertion and never sees `DuplicateIds`. The state assertion and the query building run at the first `next()`, not at the call.
