/** io.sniffy.registry.ConnectionsRegistry: the statuses of the socket
    addresses and data sources the application has reached. Resolving an
    endpoint answers CLOSED when a stored entry that matches it is closed,
    and otherwise registers the endpoint as OPEN; writeTo renders both maps
    as JSON text. The maps are ConcurrentHashMaps, so their iteration order
    is left open: the loops take the keys in any order, and writeTo reports
    the order it used. */
module ConnectionsRegistry {
  import opened Wrappers
  import opened JavaText

  datatype ConnectionStatus = OPEN | CLOSED

  /** Enum.name. */
  function Name(s: ConnectionStatus): string {
    match s
    case OPEN => "OPEN"
    case CLOSED => "CLOSED"
  }

  /** A stored socket entry: host name and port, either of them null. */
  type SocketKey = (Option<string>, Option<Int32>)

  /** A stored data source entry: url and user name, either of them null. */
  type DataSourceKey = (Option<string>, Option<string>)

  /** java.net.InetAddress, as far as the registry asks it. */
  datatype InetAddress = InetAddress(hostName: string, hostAddress: string)

  /** A resolved java.net.InetSocketAddress. */
  datatype InetSocketAddress = InetSocketAddress(hostName: string, address: InetAddress, port: Int32)

  // ---------------------------------------------------------------- resolving

  /** The test of resolveDataSourceStatus: a null argument matches any stored
      value, and a given one only an equal stored value. */
  predicate DataSourceMatches(url: Option<string>, userName: Option<string>, k: DataSourceKey) {
    (url.None? || k.0 == url) && (userName.None? || k.1 == userName)
  }

  /** The test of resolveSocketAddressStatus: a stored null host or port
      matches anything, and a stored host matches the address's host name or
      its textual address. */
  predicate SocketMatches(a: InetSocketAddress, k: SocketKey) {
    (k.0.None? || k.0.value == a.address.hostName || k.0.value == a.address.hostAddress) &&
    (k.1.None? || k.1.value == a.port)
  }

  /** Some stored entry that matches is not OPEN. */
  ghost predicate Blocked<K>(m: map<K, ConnectionStatus>, matches: K -> bool) {
    exists k :: k in m && matches(k) && m[k] != OPEN
  }

  /** What resolving does to a map: the answer, and the map afterwards. */
  ghost function Resolve<K>(m: map<K, ConnectionStatus>, matches: K -> bool, key: K): (r: (ConnectionStatus, map<K, ConnectionStatus>))
    ensures r.0 == CLOSED <==> exists k :: k in m && matches(k) && m[k] == CLOSED
    ensures r.1 == if r.0 == CLOSED then m else m[key := OPEN]
  {
    if Blocked(m, matches) then (CLOSED, m) else (OPEN, m[key := OPEN])
  }

  /** Resolving again with the same arguments answers the same and changes
      nothing more. */
  lemma ResolveIdempotent<K>(m: map<K, ConnectionStatus>, matches: K -> bool, key: K)
    ensures Resolve(Resolve(m, matches, key).1, matches, key) == Resolve(m, matches, key)
  {
    var r := Resolve(m, matches, key);
    if r.0 == OPEN {
      forall k | k in r.1 && matches(k)
        ensures r.1[k] == OPEN
      {
        if k != key {
          assert k in m && r.1[k] == m[k];
        }
      }
      assert !Blocked(r.1, matches);
      assert r.1[key := OPEN] == r.1;
    }
  }

  /** The loop of both resolve methods: the status of the first entry met,
      in whatever order the map yields them, that matches and is not OPEN.
      As OPEN and CLOSED are the only statuses, the answer does not depend
      on the order. */
  method FindBlocked<K>(m: map<K, ConnectionStatus>, matches: K -> bool) returns (found: Option<ConnectionStatus>)
    ensures found == if Blocked(m, matches) then Some(CLOSED) else None
  {
    var remaining := m.Keys;
    while remaining != {}
      invariant remaining <= m.Keys
      invariant forall k :: k in m && k !in remaining ==> !(matches(k) && m[k] != OPEN)
      decreases remaining
    {
      var k :| k in remaining;
      if matches(k) && m[k] != OPEN {
        return Some(m[k]);
      }
      remaining := remaining - {k};
    }
    return None;
  }

  // ---------------------------------------------------------------- writeTo

  /** An object member "name":"value", without string escaping. */
  function Member(name: string, value: string): string {
    "\"" + name + "\":\"" + value + "\""
  }

  /** One entry as writeTo renders it: the fields, then always a comma and
      the status. */
  function EntryJson(firstName: string, first: Option<string>, secondName: string, second: Option<string>,
                     status: ConnectionStatus): string
  {
    "{" + FieldsJson(firstName, first, secondName, second) + "," + Member("status", Name(status)) + "}"
  }

  /** The fields as writeTo writes them: each non-null one as a member, with
      a comma between the two. */
  function FieldsJson(firstName: string, first: Option<string>, secondName: string, second: Option<string>): string {
    (if first.Some? then Member(firstName, first.value) else "") +
    (if second.Some? then (if first.Some? then "," else "") + Member(secondName, second.value) else "")
  }

  /** The members for the non-null fields, in order. */
  function Fields(firstName: string, first: Option<string>, secondName: string, second: Option<string>): (r: seq<string>)
    ensures |r| == 0 <==> first.None? && second.None?
    ensures forall i :: 0 <= i < |r| ==> |r[i]| > 0 && r[i][0] == '"'
  {
    (if first.Some? then [Member(firstName, first.value)] else []) +
    (if second.Some? then [Member(secondName, second.value)] else [])
  }

  /** The members an entry has, in order; the status is always there. */
  function Members(firstName: string, first: Option<string>, secondName: string, second: Option<string>,
                   status: ConnectionStatus): (r: seq<string>)
    ensures 0 < |r| && forall i :: 0 <= i < |r| ==> |r[i]| > 0 && r[i][0] == '"'
  {
    Fields(firstName, first, secondName, second) + [Member("status", Name(status))]
  }

  /** The entry with a comma only between members: a JSON object in the
      syntax of section 4 of RFC 8259 (strings left unescaped). */
  function EntryJsonFixed(firstName: string, first: Option<string>, secondName: string, second: Option<string>,
                          status: ConnectionStatus): string
  {
    "{" + Join(Members(firstName, first, secondName, second, status), ",") + "}"
  }

  /** Joins of one and two texts. */
  lemma JoinSmall(a: string, b: string, separator: string)
    ensures Join([a], separator) == a
    ensures Join([a, b], separator) == a + separator + b
  {
    assert [a, b][..1] == [a];
  }

  /** The fields writeTo writes are the join of the members present. */
  lemma FieldsJsonIsJoin(firstName: string, first: Option<string>, secondName: string, second: Option<string>)
    ensures FieldsJson(firstName, first, secondName, second) == Join(Fields(firstName, first, secondName, second), ",")
  {
    if first.Some? && second.Some? {
      JoinSmall(Member(firstName, first.value), Member(secondName, second.value), ",");
    } else if first.Some? {
      JoinSmall(Member(firstName, first.value), "", ",");
    } else if second.Some? {
      JoinSmall(Member(secondName, second.value), "", ",");
    }
  }

  /** As written, an entry with a field present is the comma-separated
      members in braces. */
  lemma EntryJsonWithFields(firstName: string, first: Option<string>, secondName: string, second: Option<string>,
                            status: ConnectionStatus)
    requires first.Some? || second.Some?
    ensures EntryJson(firstName, first, secondName, second, status) == EntryJsonFixed(firstName, first, secondName, second, status)
  {
    var fs := Fields(firstName, first, secondName, second);
    var st := Member("status", Name(status));
    FieldsJsonIsJoin(firstName, first, secondName, second);
    JoinStep(fs, st, ",");
    assert Join(fs + [st], ",") == Join(fs, ",") + "," + st;
  }

  /** As written, an entry with both fields null opens with a comma, which
      no JSON object does. */
  lemma EntryJsonWithoutFields(firstName: string, secondName: string, status: ConnectionStatus)
    ensures EntryJson(firstName, None, secondName, None, status) == "{," + Member("status", Name(status)) + "}"
    ensures EntryJson(firstName, None, secondName, None, status)[..2] == "{,"
  {
    assert FieldsJson(firstName, None, secondName, None) == "";
  }

  /** A join of a non-empty list starts with its first element. */
  lemma {:induction false} JoinHead(texts: seq<string>, separator: string)
    requires |texts| > 0
    ensures |Join(texts, separator)| >= |texts[0]| && Join(texts, separator)[..|texts[0]|] == texts[0]
  {
    if |texts| > 1 {
      var init := texts[..|texts| - 1];
      JoinHead(init, separator);
      assert init[0] == texts[0];
      assert Join(texts, separator) == Join(init, separator) + separator + texts[|texts| - 1];
    }
  }

  /** The corrected entry always opens with a member, never with a comma. */
  lemma EntryJsonFixedOpensWithMember(firstName: string, first: Option<string>, secondName: string, second: Option<string>,
                                      status: ConnectionStatus)
    ensures EntryJsonFixed(firstName, first, secondName, second, status)[..2] == "{\""
  {
    var ms := Members(firstName, first, secondName, second, status);
    JoinHead(ms, ",");
    var j := Join(ms, ",");
    assert j[..|ms[0]|][0] == '"';
    assert EntryJsonFixed(firstName, first, secondName, second, status) == "{" + j + "}";
  }

  /** An entry of the sockets section; the port is written by Integer.toString. */
  function SocketEntryJson(k: SocketKey, status: ConnectionStatus): string {
    EntryJson("host", k.0, "port", if k.1.Some? then Some(Decimal(k.1.value)) else None, status)
  }

  function DataSourceEntryJson(k: DataSourceKey, status: ConnectionStatus): string {
    EntryJson("url", k.0, "userName", k.1, status)
  }

  function SocketEntryJsonFixed(k: SocketKey, status: ConnectionStatus): string {
    EntryJsonFixed("host", k.0, "port", if k.1.Some? then Some(Decimal(k.1.value)) else None, status)
  }

  function DataSourceEntryJsonFixed(k: DataSourceKey, status: ConnectionStatus): string {
    EntryJsonFixed("url", k.0, "userName", k.1, status)
  }

  /** `order` lists the keys of `m`, each once. */
  ghost predicate Enumerates<K(!new)>(order: seq<K>, m: map<K, ConnectionStatus>) {
    (forall k :: k in m <==> k in order) &&
    (forall i, j :: 0 <= i < j < |order| ==> order[i] != order[j])
  }

  /** A key listing has as many elements as the map has keys. */
  lemma {:induction false} EnumeratesSize<K(!new)>(order: seq<K>, m: map<K, ConnectionStatus>)
    requires Enumerates(order, m)
    ensures |order| == |m|
  {
    if |order| > 0 {
      var last := order[|order| - 1];
      var init := order[..|order| - 1];
      assert forall i :: 0 <= i < |init| ==> init[i] == order[i];
      assert last !in init;
      var rest := map k | k in m && k != last :: m[k];
      assert rest.Keys == m.Keys - {last};
      forall k ensures k in rest <==> k in init {
        if k in init {
          var i :| 0 <= i < |init| && init[i] == k;
          assert order[i] == k;
        }
        if k in rest {
          assert k in order;
          var i :| 0 <= i < |order| && order[i] == k;
          assert i < |init| && init[i] == k;
        }
      }
      EnumeratesSize(init, rest);
    } else {
      assert m.Keys == {};
    }
  }

  /** The rendered entries of `m`, in the given order. */
  function Rendered<K>(order: seq<K>, m: map<K, ConnectionStatus>, render: (K, ConnectionStatus) -> string): (r: seq<string>)
    requires forall k :: k in order ==> k in m
    ensures |r| == |order| && forall i :: 0 <= i < |order| ==> r[i] == render(order[i], m[order[i]])
  {
    seq(|order|, i requires 0 <= i < |order| => render(order[i], m[order[i]]))
  }

  /** The text writeTo produces from the rendered entries of each map: a
      section appears only when it has entries. */
  function RegistryJson(persistent: bool, sockets: seq<string>, dataSources: seq<string>): string {
    Head(persistent) + Section("sockets", sockets) + Section("dataSources", dataSources) + "}"
  }

  /** The opening brace and the persistent flag. */
  function Head(persistent: bool): string {
    "{\"persistent\":" + BooleanText(persistent)
  }

  /** A named array of entries after a comma, or nothing when there are none. */
  function Section(name: string, entries: seq<string>): string {
    if |entries| > 0 then Opening(name) + Join(entries, ",") + "]" else ""
  }

  /** What opens a section: a comma, the quoted name, a colon and a bracket. */
  function Opening(name: string): string {
    ",\"" + name + "\":["
  }

  /** Appending to a join: one separator before the new text, unless the
      join was empty. */
  lemma JoinStep(texts: seq<string>, x: string, separator: string)
    ensures Join(texts, separator) + (if |texts| > 0 then separator else "") + x == Join(texts + [x], separator)
  {
    assert (texts + [x])[..|texts|] == texts;
  }

  /** Rendering one more key adds its entry at the end. */
  lemma RenderedSnoc<K>(order: seq<K>, k: K, m: map<K, ConnectionStatus>, render: (K, ConnectionStatus) -> string)
    requires (forall j :: j in order ==> j in m) && k in m
    ensures Rendered(order + [k], m, render) == Rendered(order, m, render) + [render(k, m[k])]
  {
  }

  /** The iterator loop of writeTo over one map: each entry, and a comma
      after it while the iterator has more. */
  method WriteEntries<K(!new)>(m: map<K, ConnectionStatus>, render: (K, ConnectionStatus) -> string)
    returns (out: string, ghost order: seq<K>)
    ensures Enumerates(order, m)
    ensures out == Join(Rendered(order, m, render), ",")
  {
    out := "";
    order := [];
    var remaining := m.Keys;
    while remaining != {}
      invariant remaining <= m.Keys
      invariant forall k :: k in m <==> k in order || k in remaining
      invariant forall k :: k in order ==> k !in remaining
      invariant forall i, j :: 0 <= i < j < |order| ==> order[i] != order[j]
      invariant remaining != {} ==> out == Join(Rendered(order, m, render), ",") + (if |order| > 0 then "," else "")
      invariant remaining == {} ==> out == Join(Rendered(order, m, render), ",")
      decreases remaining
    {
      var k :| k in remaining;
      JoinStep(Rendered(order, m, render), render(k, m[k]), ",");
      RenderedSnoc(order, k, m, render);
      out := out + render(k, m[k]);
      order := order + [k];
      remaining := remaining - {k};
      if remaining != {} {
        out := out + ",";
      }
    }
  }

  /** One section of writeTo: written only when the map is not empty. */
  method WriteSection<K(!new)>(name: string, m: map<K, ConnectionStatus>, render: (K, ConnectionStatus) -> string)
    returns (text: string, ghost order: seq<K>)
    ensures Enumerates(order, m)
    ensures text == Section(name, Rendered(order, m, render))
  {
    text, order := "", [];
    if |m| > 0 {
      var entries;
      entries, order := WriteEntries(m, render);
      EnumeratesSize(order, m);
      text := Opening(name) + entries + "]";
    } else {
      EnumeratesSize(order, m);
    }
  }

  /** The whole of writeTo, for the given entry renderers. */
  method WriteRegistry(persistent: bool, addresses: map<SocketKey, ConnectionStatus>,
                       dataSources: map<DataSourceKey, ConnectionStatus>,
                       renderSocket: (SocketKey, ConnectionStatus) -> string,
                       renderDataSource: (DataSourceKey, ConnectionStatus) -> string)
    returns (out: string, ghost socketOrder: seq<SocketKey>, ghost dataSourceOrder: seq<DataSourceKey>)
    ensures Enumerates(socketOrder, addresses) && Enumerates(dataSourceOrder, dataSources)
    ensures out == RegistryJson(persistent, Rendered(socketOrder, addresses, renderSocket),
                                Rendered(dataSourceOrder, dataSources, renderDataSource))
  {
    var sockets, dataSourcesText;
    sockets, socketOrder := WriteSection("sockets", addresses, renderSocket);
    dataSourcesText, dataSourceOrder := WriteSection("dataSources", dataSources, renderDataSource);
    out := "{\"persistent\":" + BooleanText(persistent) + sockets + dataSourcesText + "}";
  }

  // ---------------------------------------------------------------- the registry

  class Registry {
    var discoveredAddresses: map<SocketKey, ConnectionStatus>
    var discoveredDataSources: map<DataSourceKey, ConnectionStatus>
    var persistRegistry: bool

    /** Loading the stored registry from a file is not part of this model:
        the registry starts empty. */
    constructor ()
      ensures discoveredAddresses == map[] && discoveredDataSources == map[] && !persistRegistry
    {
      discoveredAddresses := map[];
      discoveredDataSources := map[];
      persistRegistry := false;
    }

    method ResolveDataSourceStatus(url: Option<string>, userName: Option<string>) returns (status: ConnectionStatus)
      modifies this
      ensures (status, discoveredDataSources) ==
        Resolve(old(discoveredDataSources), k => DataSourceMatches(url, userName, k), (url, userName))
      ensures discoveredAddresses == old(discoveredAddresses) && persistRegistry == old(persistRegistry)
    {
      var found := FindBlocked(discoveredDataSources, k => DataSourceMatches(url, userName, k));
      if found.Some? {
        return found.value;
      }
      SetDataSourceStatus(url, userName, OPEN);
      return OPEN;
    }

    /** The key registered is the socket address's host name and port. */
    method ResolveSocketAddressStatus(a: InetSocketAddress) returns (status: ConnectionStatus)
      modifies this
      ensures (status, discoveredAddresses) ==
        Resolve(old(discoveredAddresses), k => SocketMatches(a, k), (Some(a.hostName), Some(a.port)))
      ensures discoveredDataSources == old(discoveredDataSources) && persistRegistry == old(persistRegistry)
    {
      var found := FindBlocked(discoveredAddresses, k => SocketMatches(a, k));
      if found.Some? {
        return found.value;
      }
      SetSocketAddressStatus(Some(a.hostName), Some(a.port), OPEN);
      return OPEN;
    }

    /** Storing the registry to a file when persistRegistry is set is not
        part of this model. */
    method SetSocketAddressStatus(hostName: Option<string>, port: Option<Int32>, status: ConnectionStatus)
      modifies this
      ensures discoveredAddresses == old(discoveredAddresses)[(hostName, port) := status]
      ensures discoveredDataSources == old(discoveredDataSources) && persistRegistry == old(persistRegistry)
    {
      discoveredAddresses := discoveredAddresses[(hostName, port) := status];
    }

    method SetDataSourceStatus(url: Option<string>, userName: Option<string>, status: ConnectionStatus)
      modifies this
      ensures discoveredDataSources == old(discoveredDataSources)[(url, userName) := status]
      ensures discoveredAddresses == old(discoveredAddresses) && persistRegistry == old(persistRegistry)
    {
      discoveredDataSources := discoveredDataSources[(url, userName) := status];
    }

    method SetPersistRegistry(persist: bool)
      modifies this
      ensures persistRegistry == persist
      ensures discoveredAddresses == old(discoveredAddresses) && discoveredDataSources == old(discoveredDataSources)
    {
      persistRegistry := persist;
    }

    method Clear()
      modifies this
      ensures discoveredAddresses == map[] && discoveredDataSources == map[] && !persistRegistry
    {
      discoveredAddresses := map[];
      discoveredDataSources := map[];
      persistRegistry := false;
    }

    /** writeTo as written, with the text the Writer receives as the result
        and the orders in which the two maps were iterated. */
    method WriteTo() returns (out: string, ghost socketOrder: seq<SocketKey>, ghost dataSourceOrder: seq<DataSourceKey>)
      ensures Enumerates(socketOrder, discoveredAddresses) && Enumerates(dataSourceOrder, discoveredDataSources)
      ensures out == RegistryJson(persistRegistry, Rendered(socketOrder, discoveredAddresses, SocketEntryJson),
                                  Rendered(dataSourceOrder, discoveredDataSources, DataSourceEntryJson))
    {
      out, socketOrder, dataSourceOrder :=
        WriteRegistry(persistRegistry, discoveredAddresses, discoveredDataSources, SocketEntryJson, DataSourceEntryJson);
    }

    /** writeTo with the comma written only between the members of an entry. */
    method WriteToFixed() returns (out: string, ghost socketOrder: seq<SocketKey>, ghost dataSourceOrder: seq<DataSourceKey>)
      ensures Enumerates(socketOrder, discoveredAddresses) && Enumerates(dataSourceOrder, discoveredDataSources)
      ensures out == RegistryJson(persistRegistry, Rendered(socketOrder, discoveredAddresses, SocketEntryJsonFixed),
                                  Rendered(dataSourceOrder, discoveredDataSources, DataSourceEntryJsonFixed))
    {
      out, socketOrder, dataSourceOrder :=
        WriteRegistry(persistRegistry, discoveredAddresses, discoveredDataSources, SocketEntryJsonFixed, DataSourceEntryJsonFixed);
    }
  }

  // ---------------------------------------------------------------- consequences

  /** A stored entry with neither host nor port that is CLOSED blocks every
      socket address, whatever else is stored. */
  lemma WildcardSocketBlocksAll(m: map<SocketKey, ConnectionStatus>, a: InetSocketAddress, key: SocketKey)
    requires (None, None) in m && m[(None, None)] == CLOSED
    ensures Resolve(m, k => SocketMatches(a, k), key) == (CLOSED, m)
  {
    assert SocketMatches(a, (None, None));
  }

  /** A stored host matches an address through its textual form too. */
  lemma HostAddressMatches(m: map<SocketKey, ConnectionStatus>, a: InetSocketAddress, key: SocketKey)
    requires (Some(a.address.hostAddress), Some(a.port)) in m && m[(Some(a.address.hostAddress), Some(a.port))] == CLOSED
    ensures Resolve(m, k => SocketMatches(a, k), key).0 == CLOSED
  {
    assert SocketMatches(a, (Some(a.address.hostAddress), Some(a.port)));
  }

  /** The only listing of a one-key map. */
  lemma EnumeratesSingleton<K(!new)>(order: seq<K>, k: K, v: ConnectionStatus)
    requires Enumerates(order, map[k := v])
    ensures order == [k]
  {
    EnumeratesSize(order, map[k := v]);
    assert order[0] in map[k := v];
  }

  /** Posting a data source registers it OPEN, deleting it switches the
      same single entry to CLOSED, and resolving by url alone then answers
      CLOSED. */
  method EditDataSourceRegistry() returns (sizeAfterPost: int, statusAfterPost: ConnectionStatus,
                                           sizeAfterDelete: int, statusAfterDelete: ConnectionStatus,
                                           resolved: ConnectionStatus)
    ensures sizeAfterPost == 1 && statusAfterPost == OPEN
    ensures sizeAfterDelete == 1 && statusAfterDelete == CLOSED && resolved == CLOSED
  {
    var registry := new Registry();
    var url, userName := Some("jdbc:h2:mem:data/base"), Some("sa");
    registry.SetDataSourceStatus(url, userName, OPEN);
    sizeAfterPost, statusAfterPost := |registry.discoveredDataSources|, registry.discoveredDataSources[(url, userName)];
    registry.SetDataSourceStatus(url, userName, CLOSED);
    sizeAfterDelete, statusAfterDelete := |registry.discoveredDataSources|, registry.discoveredDataSources[(url, userName)];
    assert DataSourceMatches(url, None, (url, userName));
    resolved := registry.ResolveDataSourceStatus(url, None);
  }

  /** A section with entries, wherever it is placed, begins with its opening. */
  lemma SectionOpensAt(a: string, name: string, entries: seq<string>, b: string)
    requires |entries| > 0
    ensures OccursAt(a + Section(name, entries) + b, Opening(name), |a|)
  {
    var o, rest := Opening(name), Join(entries, ",") + "]";
    assert a + Section(name, entries) + b == a + o + (rest + b);
    OccursBetween(a, o, rest + b);
  }

  /** The sockets section, when there are sockets, opens right after the
      persistent flag, and the data sources section right after the sockets
      section; the text ends with the closing brace. */
  lemma RegistryJsonSections(persistent: bool, sockets: seq<string>, dataSources: seq<string>)
    ensures |sockets| > 0 ==> OccursAt(RegistryJson(persistent, sockets, dataSources), Opening("sockets"), |Head(persistent)|)
    ensures |dataSources| > 0 ==> OccursAt(RegistryJson(persistent, sockets, dataSources), Opening("dataSources"),
                                           |Head(persistent) + Section("sockets", sockets)|)
    ensures RegistryJson(persistent, sockets, dataSources)[|RegistryJson(persistent, sockets, dataSources)| - 1] == '}'
  {
    var head, s1, s2 := Head(persistent), Section("sockets", sockets), Section("dataSources", dataSources);
    if |sockets| > 0 {
      assert head + s1 + s2 + "}" == head + s1 + (s2 + "}");
      SectionOpensAt(head, "sockets", sockets, s2 + "}");
    }
    if |dataSources| > 0 {
      SectionOpensAt(head + s1, "dataSources", dataSources, "}");
    }
  }

  /** One socket and one data source registered OPEN: the text has a
      section for each, holding that one entry. */
  method RegistryWithOneOfEach(socket: SocketKey, dataSource: DataSourceKey) returns (out: string)
    ensures out == RegistryJson(false, [SocketEntryJson(socket, OPEN)], [DataSourceEntryJson(dataSource, OPEN)])
  {
    var registry := new Registry();
    registry.SetSocketAddressStatus(socket.0, socket.1, OPEN);
    registry.SetDataSourceStatus(dataSource.0, dataSource.1, OPEN);
    ghost var sockets, dataSources;
    out, sockets, dataSources := registry.WriteTo();
    EnumeratesSingleton(sockets, socket, OPEN);
    EnumeratesSingleton(dataSources, dataSource, OPEN);
  }
}
