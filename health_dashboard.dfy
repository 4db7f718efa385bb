/** healthcheck_dashboard: the endpoint list, the latest-result status table
    that the check loop keeps, and the HTML dashboard rendered from it. The
    HTTP probes and their timing are given as inputs. */
module HealthDashboard {
  import opened Base
  import opened Text
  import opened Seqs

  datatype Endpoint = Endpoint(name: string, url: string)

  /** "web:http://web:3000/,api:http://api:8000/health", kept as its parts. */
  const DefaultEndpoints: string := "web" + ":" + "http://web:3000/" + "," + "api" + ":" + "http://api:8000/health"
  const DefaultIntervalSecs: nat := 10

  /** `s.splitn(2, ':')` read as name and url: the name is the text before
      the first ':' and the url all the rest, later colons included; an
      entry without ':' has no url and gives no endpoint. */
  function SplitEndpoint(entry: string): (r: Option<Endpoint>)
    ensures r.None? <==> ':' !in entry
    ensures r.Some? ==> entry == r.value.name + ":" + r.value.url && ':' !in r.value.name
  {
    if entry == [] then None
    else if entry[0] == ':' then Some(Endpoint([], entry[1..]))
    else
      match SplitEndpoint(entry[1..])
      case None => None
      case Some(e) => Some(Endpoint([entry[0]] + e.name, e.url))
  }

  /** The split is determined by the first colon: any colon-free name read
      back from `name:url` is that name, whatever colons `url` holds. */
  lemma {:induction false} SplitEndpointAtFirstColon(name: string, url: string)
    requires ':' !in name
    ensures SplitEndpoint(name + ":" + url) == Some(Endpoint(name, url))
  {
    var entry := name + ":" + url;
    if name == [] {
      assert entry == [':'] + url;
      assert entry[0] == ':' && entry[1..] == url;
    } else {
      var rest := name[1..] + ":" + url;
      assert entry == [name[0]] + rest;
      assert entry[0] == name[0] && entry[1..] == rest;
      SplitEndpointAtFirstColon(name[1..], url);
      assert [name[0]] + name[1..] == name;
    }
  }

  /** `e` is what some entry of the list reads as. */
  predicate ReadFrom(e: Endpoint, entries: seq<string>) {
    exists j :: 0 <= j < |entries| && SplitEndpoint(entries[j]) == Some(e)
  }

  lemma EndpointSources(entries: seq<string>, eps: seq<Endpoint>)
    requires eps == FilterMap(entries, SplitEndpoint)
    ensures forall i :: 0 <= i < |eps| ==> ReadFrom(eps[i], entries)
  {
    forall i | 0 <= i < |eps|
      ensures ReadFrom(eps[i], entries)
    {
      var j :| 0 <= j < |entries| && (SplitEndpoint)(entries[j]) == Some(eps[i]);
      assert SplitEndpoint(entries[j]) == Some(eps[i]);
    }
  }

  /** The endpoints of a comma-separated list: malformed entries dropped,
      the others in list order. */
  function ParseEndpoints(list: string): (eps: seq<Endpoint>)
    ensures forall i :: 0 <= i < |eps| ==> ReadFrom(eps[i], Split(list, ','))
    ensures forall j :: 0 <= j < |Split(list, ',')| && SplitEndpoint(Split(list, ',')[j]).Some? ==>
              SplitEndpoint(Split(list, ',')[j]).value in eps
  {
    var entries := Split(list, ',');
    var eps := FilterMap(entries, SplitEndpoint);
    EndpointSources(entries, eps);
    eps
  }

  /** CHECK_ENDPOINTS, or the default list when unset. */
  function ConfiguredEndpoints(raw: Option<string>): (eps: seq<Endpoint>)
    ensures raw.None? ==> eps == ParseEndpoints(DefaultEndpoints)
    ensures raw.Some? ==> eps == ParseEndpoints(raw.value)
  {
    ParseEndpoints(raw.GetOr(DefaultEndpoints))
  }

  /** CHECK_INTERVAL_SECS as a `u64`, 10 when unset or not a number. */
  function ParseIntervalSecs(raw: Option<string>): (secs: nat)
    ensures raw.None? ==> secs == DefaultIntervalSecs
    ensures raw.Some? && ParseU64(raw.value).None? ==> secs == DefaultIntervalSecs
    ensures raw.Some? && ParseU64(raw.value).Some? ==> secs == ParseU64(raw.value).value
  {
    if raw.Some? && ParseU64(raw.value).Some? then ParseU64(raw.value).value else DefaultIntervalSecs
  }

  /** Entries of a comma-joined list give their endpoints in order. */
  lemma EndpointsOfJoinedList(a: string, b: string)
    ensures ParseEndpoints(a + "," + b) == ParseEndpoints(a) + ParseEndpoints(b)
  {
    SplitConcat(a, b, ',');
    assert a + "," + b == a + [','] + b;
    FilterMapAppend(Split(a, ','), Split(b, ','), SplitEndpoint);
  }

  lemma SplitSingle(s: string)
    requires ',' !in s
    ensures Split(s, ',') == [s]
  {
    SplitJoin([s], ',');
  }

  lemma SingleEndpoint(name: string, url: string)
    requires ':' !in name && ',' !in name && ',' !in url
    ensures ParseEndpoints(name + ":" + url) == [Endpoint(name, url)]
  {
    var entry := name + ":" + url;
    assert ',' !in entry by {
      assert forall k :: 0 <= k < |entry| ==> entry[k] == (if k < |name| then name[k] else if k == |name| then ':' else url[k - |name| - 1]);
    }
    SplitSingle(entry);
    SplitEndpointAtFirstColon(name, url);
  }

  lemma NoSeparators()
    ensures ':' !in "web" && ',' !in "web" && ',' !in "http://web:3000/"
    ensures ':' !in "api" && ',' !in "api" && ',' !in "http://api:8000/health"
  {
  }

  /** The default list names the web and api services. */
  lemma DefaultEndpointsParse()
    ensures ConfiguredEndpoints(None) ==
            [Endpoint("web", "http://web:3000/"), Endpoint("api", "http://api:8000/health")]
  {
    var web := "web" + ":" + "http://web:3000/";
    var api := "api" + ":" + "http://api:8000/health";
    assert DefaultEndpoints == web + "," + api;
    NoSeparators();
    EndpointsOfJoinedList(web, api);
    SingleEndpoint("web", "http://web:3000/");
    SingleEndpoint("api", "http://api:8000/health");
  }

  // ---------------------------------------------------------------------
  // the status table

  datatype Status = Status(ok: bool, responseTimeMs: nat)

  /** What one probe of an endpoint came back with. */
  datatype Probe = RequestFailed | Responded(code: int)

  /** The status recorded for a probe: healthy only for a 2xx answer. */
  function StatusOf(probe: Probe, elapsedMs: nat): (s: Status)
    ensures s.ok <==> probe.Responded? && 200 <= probe.code <= 299
    ensures s.responseTimeMs == elapsedMs
  {
    Status(probe.Responded? && 200 <= probe.code <= 299, elapsedMs)
  }

  /** One pass of `check_loop` over the endpoints, probe by probe. */
  function ApplyRound(table: map<string, Status>, eps: seq<Endpoint>, probes: seq<Probe>, elapsed: seq<nat>): map<string, Status>
    requires |probes| == |eps| && |elapsed| == |eps|
    decreases |eps|
  {
    if eps == [] then table
    else ApplyRound(table[eps[0].name := StatusOf(probes[0], elapsed[0])], eps[1..], probes[1..], elapsed[1..])
  }

  /** A name no endpoint of the round carries keeps its entry, or its absence. */
  lemma {:induction false} RoundKeepsOtherNames(table: map<string, Status>, eps: seq<Endpoint>, probes: seq<Probe>, elapsed: seq<nat>, n: string)
    requires |probes| == |eps| && |elapsed| == |eps|
    requires forall k :: 0 <= k < |eps| ==> eps[k].name != n
    ensures var t := ApplyRound(table, eps, probes, elapsed);
            (n in t <==> n in table) && (n in table ==> t[n] == table[n])
    decreases |eps|
  {
    if eps != [] {
      RoundKeepsOtherNames(table[eps[0].name := StatusOf(probes[0], elapsed[0])], eps[1..], probes[1..], elapsed[1..], n);
    }
  }

  /** The latest check of a name wins: after a round, a name holds the status
      of its last endpoint in the round. */
  lemma {:induction false} RoundLatestWins(table: map<string, Status>, eps: seq<Endpoint>, probes: seq<Probe>, elapsed: seq<nat>, j: int)
    requires |probes| == |eps| && |elapsed| == |eps|
    requires 0 <= j < |eps|
    requires forall k :: j < k < |eps| ==> eps[k].name != eps[j].name
    ensures var t := ApplyRound(table, eps, probes, elapsed);
            eps[j].name in t && t[eps[j].name] == StatusOf(probes[j], elapsed[j])
    decreases |eps|
  {
    var next := table[eps[0].name := StatusOf(probes[0], elapsed[0])];
    if j == 0 {
      RoundKeepsOtherNames(next, eps[1..], probes[1..], elapsed[1..], eps[0].name);
    } else {
      RoundLatestWins(next, eps[1..], probes[1..], elapsed[1..], j - 1);
    }
  }

  /** The names in the table after a round: the old ones and the round's. */
  lemma {:induction false} RoundKeys(table: map<string, Status>, eps: seq<Endpoint>, probes: seq<Probe>, elapsed: seq<nat>, n: string)
    requires |probes| == |eps| && |elapsed| == |eps|
    ensures n in ApplyRound(table, eps, probes, elapsed) <==>
            n in table || exists k :: 0 <= k < |eps| && eps[k].name == n
    decreases |eps|
  {
    if eps != [] {
      var next := table[eps[0].name := StatusOf(probes[0], elapsed[0])];
      RoundKeys(next, eps[1..], probes[1..], elapsed[1..], n);
      if exists k :: 0 <= k < |eps[1..]| && eps[1..][k].name == n {
        var k :| 0 <= k < |eps[1..]| && eps[1..][k].name == n;
        assert eps[k + 1].name == n;
      }
      if exists k :: 0 <= k < |eps| && eps[k].name == n {
        var k :| 0 <= k < |eps| && eps[k].name == n;
        if k > 0 {
          assert eps[1..][k - 1].name == n;
        }
      }
    }
  }

  /** The shared status map of the service. */
  class StatusBoard {
    var table: map<string, Status>

    constructor ()
      ensures table == map[]
    {
      table := map[];
    }

    /** `status.lock().insert(name, Status { .. })` */
    method Record(ep: Endpoint, probe: Probe, elapsedMs: nat)
      modifies this
      ensures table == old(table)[ep.name := StatusOf(probe, elapsedMs)]
    {
      table := table[ep.name := StatusOf(probe, elapsedMs)];
    }

    /** One iteration of the outer `loop` of `check_loop`. */
    method CheckRound(eps: seq<Endpoint>, probes: seq<Probe>, elapsed: seq<nat>)
      requires |probes| == |eps| && |elapsed| == |eps|
      modifies this
      ensures table == ApplyRound(old(table), eps, probes, elapsed)
    {
      var i := 0;
      while i < |eps|
        invariant 0 <= i <= |eps|
        invariant ApplyRound(table, eps[i..], probes[i..], elapsed[i..]) == ApplyRound(old(table), eps, probes, elapsed)
      {
        assert eps[i..][1..] == eps[i + 1..] && probes[i..][1..] == probes[i + 1..] && elapsed[i..][1..] == elapsed[i + 1..];
        Record(eps[i], probes[i], elapsed[i]);
        i := i + 1;
      }
    }

    /** `dashboard`: `order` is the map's iteration order; that it lists
        each name once is what DashboardOneItemPerEntry assumes. */
    method Dashboard(order: seq<string>) returns (html: string)
      requires forall k :: 0 <= k < |order| ==> order[k] in table
      ensures html == Header + Items(ItemsOf(order, table)) + Footer
    {
      html := Header;
      var i := 0;
      while i < |order|
        invariant 0 <= i <= |order|
        invariant html == Header + Items(ItemsOf(order[..i], table))
      {
        ItemsStep(order, i, table);
        AppendAssoc(Header, Items(ItemsOf(order[..i], table)), Item(order[i], table[order[i]]));
        html := html + Item(order[i], table[order[i]]);
        i := i + 1;
      }
      assert order[..i] == order;
      html := html + Footer;
    }
  }

  // ---------------------------------------------------------------------
  // rendering

  const Header: string := "<html><body><h1>Healthcheck</h1><ul>"
  const Footer: string := "</ul></body></html>"

  function Color(ok: bool): string {
    if ok then "green" else "red"
  }

  /** `<li style='color:{color}'>{name}: {ms} ms</li>` */
  function Item(name: string, st: Status): string {
    "<li style='color:" + Color(st.ok) + "'>" + name + ": " + NatToString(st.responseTimeMs) + " ms</li>"
  }

  /** An item opens with the green style exactly when the status is ok. */
  lemma ItemColor(name: string, st: Status)
    ensures StartsWith(Item(name, st), "<li style='color:green'>") <==> st.ok
  {
    var item := Item(name, st);
    if !st.ok {
      assert item[17] == 'r';
      assert "<li style='color:green'>"[17] == 'g';
    }
  }

  /** The items in iteration order, one per listed name. */
  function ItemsOf(order: seq<string>, table: map<string, Status>): (items: seq<string>)
    requires forall k :: 0 <= k < |order| ==> order[k] in table
    ensures |items| == |order|
    ensures forall k :: 0 <= k < |order| ==> items[k] == Item(order[k], table[order[k]])
  {
    seq(|order|, k requires 0 <= k < |order| => Item(order[k], table[order[k]]))
  }

  function Items(items: seq<string>): string {
    if items == [] then [] else Items(items[..|items| - 1]) + items[|items| - 1]
  }

  lemma ItemsSnoc(order: seq<string>, n: string, table: map<string, Status>)
    requires forall k :: 0 <= k < |order| ==> order[k] in table
    requires n in table
    ensures Items(ItemsOf(order + [n], table)) == Items(ItemsOf(order, table)) + Item(n, table[n])
  {
    var longer := ItemsOf(order + [n], table);
    assert longer[..|longer| - 1] == ItemsOf(order, table);
  }

  lemma AppendAssoc(a: string, b: string, c: string)
    ensures (a + b) + c == a + (b + c)
  {
  }

  lemma ItemsStep(order: seq<string>, i: int, table: map<string, Status>)
    requires forall k :: 0 <= k < |order| ==> order[k] in table
    requires 0 <= i < |order|
    ensures Items(ItemsOf(order[..i + 1], table)) == Items(ItemsOf(order[..i], table)) + Item(order[i], table[order[i]])
  {
    assert order[..i + 1] == order[..i] + [order[i]];
    ItemsSnoc(order[..i], order[i], table);
  }

  /** The dashboard lists every table entry exactly once: one item per name,
      with that name's status. */
  lemma DashboardOneItemPerEntry(order: seq<string>, table: map<string, Status>)
    requires forall k :: 0 <= k < |order| ==> order[k] in table
    requires forall n :: n in table ==> n in order
    requires forall a, b :: 0 <= a < b < |order| ==> order[a] != order[b]
    ensures |ItemsOf(order, table)| == |table|
    ensures forall n :: n in table ==> Item(n, table[n]) in ItemsOf(order, table)
  {
    var names := set k | 0 <= k < |order| :: order[k];
    assert names == table.Keys;
    DistinctCard(order);
    forall n | n in table
      ensures Item(n, table[n]) in ItemsOf(order, table)
    {
      var k :| 0 <= k < |order| && order[k] == n;
      assert ItemsOf(order, table)[k] == Item(n, table[n]);
    }
  }

  lemma {:induction false} DistinctCard(order: seq<string>)
    requires forall a, b :: 0 <= a < b < |order| ==> order[a] != order[b]
    ensures |set k | 0 <= k < |order| :: order[k]| == |order|
  {
    if order != [] {
      var init := order[..|order| - 1];
      DistinctCard(init);
      var last := order[|order| - 1];
      assert (set k | 0 <= k < |order| :: order[k]) == (set k | 0 <= k < |init| :: init[k]) + {last};
      assert last !in (set k | 0 <= k < |init| :: init[k]);
    }
  }
}
