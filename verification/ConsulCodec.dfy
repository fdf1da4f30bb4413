/** registry/consul/consul.go: an instance written to, and read back from, the flat string
    map and the tag list of a Consul service registration. */
module ConsulCodec {
  import opened Instances
  import opened Listings
  import opened Decimals

  datatype Registration = Registration(
    id: string, name: string, address: string, port: int, meta: map<string, string>, tags: seq<string>)

  /** The libraries' part: UUID text and JSON, both ways. */
  datatype Codec = Codec(
    printId: UUID -> string, parseId: string -> Option<UUID>,
    encodeServer: Server -> string, decodeServer: string -> Option<Server>,
    encodeTopic: Topic -> string, decodeTopic: string -> Option<Topic>)

  ghost predicate Faithful(c: Codec) {
    && (forall id: UUID :: c.parseId(c.printId(id)) == Some(id))
    && (forall s :: c.decodeServer(c.encodeServer(s)) == Some(s))
    && (forall t :: c.decodeTopic(c.encodeTopic(t)) == Some(t))
  }

  const TOPIC := "topic-"
  const META := "meta-"
  const TAG := "tag-"

  function TagKey(i: nat): string {
    TAG + Decimal(i)
  }

  predicate HasPrefix(k: string, prefix: string) {
    prefix <= k
  }

  /** The keys as other readers of the registration know them. */
  lemma WireKeys(n: string, i: nat)
    ensures TOPIC + n == "topic-" + n && META + n == "meta-" + n && TagKey(i) == "tag-" + Decimal(i)
  {
  }

  /** The three key ranges of the flat map do not overlap, whatever follows the prefix. */
  lemma PrefixesDisjoint(k: string)
    ensures !(HasPrefix(k, TOPIC) && HasPrefix(k, META))
    ensures !(HasPrefix(k, TOPIC) && HasPrefix(k, TAG))
    ensures !(HasPrefix(k, META) && HasPrefix(k, TAG))
  {
    assert HasPrefix(k, TOPIC) ==> k[1] == 'o';
    assert HasPrefix(k, META) ==> k[1] == 'e';
    assert HasPrefix(k, TAG) ==> k[1] == 'a';
  }

  lemma PrefixedKeys(n: string)
    ensures HasPrefix(TOPIC + n, TOPIC) && (TOPIC + n)[|TOPIC|..] == n
    ensures HasPrefix(META + n, META) && (META + n)[|META|..] == n
    ensures HasPrefix(TAG + n, TAG) && (TAG + n)[|TAG|..] == n
  {
  }

  lemma PrefixSplits(k: string, prefix: string)
    requires HasPrefix(k, prefix)
    ensures k == prefix + k[|prefix|..]
  {
  }

  // ---- writing ----

  ghost predicate TopicsIn(c: Codec, topics: map<string, Topic>, meta: map<string, string>) {
    && (forall n :: n in topics ==> TOPIC + n in meta && meta[TOPIC + n] == c.encodeTopic(topics[n]))
    && (forall k :: k in meta && HasPrefix(k, TOPIC) ==> k[|TOPIC|..] in topics)
  }

  ghost predicate MetadataIn(metadata: map<string, string>, meta: map<string, string>) {
    && (forall n :: n in metadata ==> META + n in meta && meta[META + n] == metadata[n])
    && (forall k :: k in meta && HasPrefix(k, META) ==> k[|META|..] in metadata)
  }

  ghost predicate TagsIn(tags: seq<string>, meta: map<string, string>) {
    && (forall i :: 0 <= i < |tags| ==> TagKey(i) in meta && meta[TagKey(i)] == tags[i])
    && (forall k :: k in meta && HasPrefix(k, TAG) ==> exists i :: 0 <= i < |tags| && k == TagKey(i))
  }

  function EncodedServers(c: Codec, servers: map<string, Server>): map<string, string> {
    map n | n in servers :: c.encodeServer(servers[n])
  }

  /** What Register hands to Consul, up to the order of the tags. */
  ghost predicate Encodes(c: Codec, x: Instance, reg: Registration) {
    && reg.id == c.printId(x.id) && reg.name == x.serviceName
    && reg.address == x.managerAddress && reg.port == x.managerPort
    && TopicsIn(c, x.topics, reg.meta) && MetadataIn(x.metadata, reg.meta) && TagsIn(x.tags, reg.meta)
    && exists order :: Lists(order, x.servers.Keys) && reg.tags == Pick(order, EncodedServers(c, x.servers))
  }

  method Encode(c: Codec, x: Instance) returns (reg: Registration)
    ensures Encodes(c, x, reg)
  {
    var order := AnyOrder(x.servers.Keys);
    var tags := [];
    for i := 0 to |order|
      invariant tags == Pick(order[..i], EncodedServers(c, x.servers))
    {
      tags := tags + [c.encodeServer(x.servers[order[i]])];
    }
    assert order[..|order|] == order;
    PrefixLemmas();
    var meta := EncodeTopics(c, x.topics);
    meta := EncodeMetadata(x.metadata, meta);
    assert TopicsIn(c, x.topics, meta);
    meta := EncodeTags(x.tags, meta);
    reg := Registration(c.printId(x.id), x.serviceName, x.managerAddress, x.managerPort, meta, tags);
  }

  lemma PrefixLemmas()
    ensures forall k :: !(HasPrefix(k, TOPIC) && HasPrefix(k, META))
    ensures forall k :: !(HasPrefix(k, TOPIC) && HasPrefix(k, TAG))
    ensures forall k :: !(HasPrefix(k, META) && HasPrefix(k, TAG))
    ensures forall n :: HasPrefix(TOPIC + n, TOPIC)
    ensures forall n :: HasPrefix(META + n, META)
    ensures forall n :: HasPrefix(TAG + n, TAG)
  {
    forall k
      ensures !(HasPrefix(k, TOPIC) && HasPrefix(k, META))
      ensures !(HasPrefix(k, TOPIC) && HasPrefix(k, TAG))
      ensures !(HasPrefix(k, META) && HasPrefix(k, TAG))
    {
      PrefixesDisjoint(k);
    }
  }

  method EncodeTopics(c: Codec, topics: map<string, Topic>) returns (meta: map<string, string>)
    ensures TopicsIn(c, topics, meta)
    ensures forall k :: k in meta ==> HasPrefix(k, TOPIC)
  {
    var order := AnyOrder(topics.Keys);
    meta := map[];
    for i := 0 to |order|
      invariant forall k :: k in meta ==> HasPrefix(k, TOPIC) && k[|TOPIC|..] in order[..i]
      invariant forall n :: n in order[..i] ==> TOPIC + n in meta && meta[TOPIC + n] == c.encodeTopic(topics[n])
    {
      assert order[..i + 1] == order[..i] + [order[i]];
      PrefixedKeys(order[i]);
      forall n | n in order[..i] && TOPIC + n == TOPIC + order[i] ensures n == order[i] {
        PrefixedKeys(n);
      }
      meta := meta[TOPIC + order[i] := c.encodeTopic(topics[order[i]])];
    }
    assert order[..|order|] == order;
  }

  method EncodeMetadata(metadata: map<string, string>, start: map<string, string>) returns (meta: map<string, string>)
    requires forall k :: k in start ==> !HasPrefix(k, META)
    ensures MetadataIn(metadata, meta)
    ensures forall k :: !HasPrefix(k, META) ==> (k in meta <==> k in start) && (k in start ==> meta[k] == start[k])
  {
    var order := AnyOrder(metadata.Keys);
    meta := start;
    for i := 0 to |order|
      invariant forall k :: k in meta && HasPrefix(k, META) ==> k[|META|..] in order[..i]
      invariant forall n :: n in order[..i] ==> META + n in meta && meta[META + n] == metadata[n]
      invariant forall k :: !HasPrefix(k, META) ==> (k in meta <==> k in start) && (k in start ==> meta[k] == start[k])
    {
      assert order[..i + 1] == order[..i] + [order[i]];
      PrefixedKeys(order[i]);
      forall n | n in order[..i] && META + n == META + order[i] ensures n == order[i] {
        PrefixedKeys(n);
      }
      meta := meta[META + order[i] := metadata[order[i]]];
    }
    assert order[..|order|] == order;
  }

  method EncodeTags(tags: seq<string>, start: map<string, string>) returns (meta: map<string, string>)
    requires forall k :: k in start ==> !HasPrefix(k, TAG)
    ensures TagsIn(tags, meta)
    ensures forall k :: !HasPrefix(k, TAG) ==> (k in meta <==> k in start) && (k in start ==> meta[k] == start[k])
  {
    meta := start;
    for i := 0 to |tags|
      invariant forall k :: k in meta && HasPrefix(k, TAG) ==> exists j :: 0 <= j < i && k == TagKey(j)
      invariant forall j :: 0 <= j < i ==> TagKey(j) in meta && meta[TagKey(j)] == tags[j]
      invariant forall k :: !HasPrefix(k, TAG) ==> (k in meta <==> k in start) && (k in start ==> meta[k] == start[k])
    {
      forall j | 0 <= j < i ensures TagKey(j) != TagKey(i) {
        TagKeyInjective(j, i);
      }
      meta := meta[TagKey(i) := tags[i]];
    }
  }

  lemma TagKeyInjective(i: nat, j: nat)
    ensures TagKey(i) == TagKey(j) <==> i == j
  {
    PrefixedKeys(Decimal(i));
    PrefixedKeys(Decimal(j));
    DecimalInjective(i, j);
  }

  // ---- reading ----

  /** Tag i is the last one that decodes to a server with this name. */
  ghost predicate LastNamed(c: Codec, tags: seq<string>, i: int, name: string) {
    && 0 <= i < |tags| && Named(c, tags[i], name)
    && forall j :: i < j < |tags| ==> !Named(c, tags[j], name)
  }

  predicate Named(c: Codec, tag: string, name: string) {
    var s := c.decodeServer(tag);
    s.Some? && s.value.name == name
  }

  /** Each tag that decodes puts its server under that server's name, the last one per name
      staying; tags that do not decode are skipped. */
  ghost predicate ServersOut(c: Codec, tags: seq<string>, servers: map<string, Server>) {
    && (forall n :: n in servers ==>
          exists i :: LastNamed(c, tags, i, n) && c.decodeServer(tags[i]) == Some(servers[n]))
    && (forall i, n :: 0 <= i < |tags| && Named(c, tags[i], n) ==> n in servers)
  }

  ghost predicate TopicsOut(c: Codec, meta: map<string, string>, seen: set<string>, topics: map<string, Topic>)
    requires seen <= meta.Keys
  {
    forall n :: && (n in topics <==> TOPIC + n in seen && c.decodeTopic(meta[TOPIC + n]).Some?)
                && (n in topics ==> Some(topics[n]) == c.decodeTopic(meta[TOPIC + n]))
  }

  ghost predicate MetadataOut(meta: map<string, string>, seen: set<string>, metadata: map<string, string>)
    requires seen <= meta.Keys
  {
    forall n :: && (n in metadata <==> META + n in seen)
                && (n in metadata ==> metadata[n] == meta[META + n])
  }

  function TagKeys(keys: set<string>): set<string> {
    set k | k in keys && HasPrefix(k, TAG)
  }

  ghost predicate TagsOut(meta: map<string, string>, seen: set<string>, tags: seq<string>)
    requires seen <= meta.Keys
  {
    exists order :: Lists(order, TagKeys(seen)) && tags == Pick(order, meta)
  }

  /** What Load makes of one agent service; the fields Register does not write are zero. */
  ghost predicate Decodes(c: Codec, svc: Registration, x: Instance) {
    && c.parseId(svc.id) == Some(x.id) && x.serviceName == svc.name
    && x.managerAddress == svc.address && x.managerPort == svc.port
    && ServersOut(c, svc.tags, x.servers)
    && TopicsOut(c, svc.meta, svc.meta.Keys, x.topics)
    && MetadataOut(svc.meta, svc.meta.Keys, x.metadata)
    && TagsOut(svc.meta, svc.meta.Keys, x.tags)
    && x.kind == "" && x.advertiseAddress == "" && x.checkEntryPoint == ""
    && x.weight == 0 && x.status == 0 && x.ttl == 0
  }

  method Decode(c: Codec, svc: Registration) returns (r: Option<Instance>)
    ensures r.Some? <==> c.parseId(svc.id).Some?
    ensures r.Some? ==> Decodes(c, svc, r.value)
  {
    var id := c.parseId(svc.id);
    if id.None? {
      return None;
    }
    var servers := DecodeServers(c, svc.tags);
    var metadata, topics, tags := DecodeMeta(c, svc.meta);
    r := Some(Instance(id.value, svc.name, "", "", svc.port, svc.address, tags, metadata,
                       0, 0, "", 0, servers, topics));
  }

  lemma ServersExtend(c: Codec, tags: seq<string>, i: nat, servers: map<string, Server>)
    requires i < |tags| && ServersOut(c, tags[..i], servers)
    ensures var s := c.decodeServer(tags[i]);
            ServersOut(c, tags[..i + 1], if s.Some? then servers[s.value.name := s.value] else servers)
  {
    var s, up := c.decodeServer(tags[i]), tags[..i + 1];
    var servers' := if s.Some? then servers[s.value.name := s.value] else servers;
    assert up == tags[..i] + [tags[i]];
    forall n | n in servers'
      ensures exists j :: LastNamed(c, up, j, n) && c.decodeServer(up[j]) == Some(servers'[n])
    {
      if Named(c, tags[i], n) {
        assert LastNamed(c, up, i, n);
      } else {
        var j :| LastNamed(c, tags[..i], j, n) && c.decodeServer(tags[..i][j]) == Some(servers[n]);
        assert LastNamed(c, up, j, n);
      }
    }
  }

  method DecodeServers(c: Codec, tags: seq<string>) returns (servers: map<string, Server>)
    ensures ServersOut(c, tags, servers)
  {
    hide ServersOut;
    servers := map[];
    assert ServersOut(c, tags[..0], servers) by {
      NoServers(c, tags);
    }
    for i := 0 to |tags|
      invariant ServersOut(c, tags[..i], servers)
    {
      ServersExtend(c, tags, i, servers);
      match c.decodeServer(tags[i])
      case Some(s) => servers := servers[s.name := s];
      case None =>
    }
    assert tags[..|tags|] == tags;
  }

  lemma NoServers(c: Codec, tags: seq<string>)
    ensures ServersOut(c, tags[..0], map[])
  {
  }

  /** One turn of Load's loop over the map, for the key k. */
  method DecodeEntry(c: Codec, meta: map<string, string>, ghost seen: set<string>, k: string,
                     metadata: map<string, string>, topics: map<string, Topic>, tags: seq<string>)
    returns (metadata': map<string, string>, topics': map<string, Topic>, tags': seq<string>)
    requires seen <= meta.Keys && k in meta && k !in seen
    requires MetadataOut(meta, seen, metadata) && TopicsOut(c, meta, seen, topics) && TagsOut(meta, seen, tags)
    ensures MetadataOut(meta, seen + {k}, metadata')
    ensures TopicsOut(c, meta, seen + {k}, topics')
    ensures TagsOut(meta, seen + {k}, tags')
  {
    hide TagsOut;
    metadata', topics', tags' := metadata, topics, tags;
    PrefixesDisjoint(k);
    TagsExtend(meta, seen, tags, k);
    if HasPrefix(k, META) {
      PrefixSplits(k, META);
      metadata' := metadata[k[|META|..] := meta[k]];
    }
    if HasPrefix(k, TOPIC) {
      PrefixSplits(k, TOPIC);
      match c.decodeTopic(meta[k])
      case Some(t) => topics' := topics[k[|TOPIC|..] := t];
      case None =>
    }
    if HasPrefix(k, TAG) {
      tags' := tags + [meta[k]];
    }
  }

  lemma NothingDecoded(c: Codec, meta: map<string, string>)
    ensures MetadataOut(meta, {}, map[]) && TopicsOut(c, meta, {}, map[]) && TagsOut(meta, {}, [])
  {
    assert Lists<string>([], TagKeys({})) && [] == Pick([], meta);
  }

  method DecodeMeta(c: Codec, meta: map<string, string>)
    returns (metadata: map<string, string>, topics: map<string, Topic>, tags: seq<string>)
    ensures MetadataOut(meta, meta.Keys, metadata)
    ensures TopicsOut(c, meta, meta.Keys, topics)
    ensures TagsOut(meta, meta.Keys, tags)
  {
    hide MetadataOut, TopicsOut, TagsOut;
    metadata, topics, tags := map[], map[], [];
    var order := AnyOrder(meta.Keys);
    ghost var seen: set<string> := {};
    NothingDecoded(c, meta);
    for i := 0 to |order|
      invariant seen <= meta.Keys && forall k :: k in seen <==> k in order[..i]
      invariant MetadataOut(meta, seen, metadata)
      invariant TopicsOut(c, meta, seen, topics)
      invariant TagsOut(meta, seen, tags)
    {
      assert order[..i + 1] == order[..i] + [order[i]];
      metadata, topics, tags := DecodeEntry(c, meta, seen, order[i], metadata, topics, tags);
      seen := seen + {order[i]};
    }
    assert order[..|order|] == order;
    assert seen == meta.Keys;
  }

  lemma TagsExtend(meta: map<string, string>, seen: set<string>, tags: seq<string>, k: string)
    requires seen <= meta.Keys && k in meta && k !in seen
    requires TagsOut(meta, seen, tags)
    ensures TagsOut(meta, seen + {k}, if HasPrefix(k, TAG) then tags + [meta[k]] else tags)
  {
    var order :| Lists(order, TagKeys(seen)) && tags == Pick(order, meta);
    if HasPrefix(k, TAG) {
      assert k !in order;
      assert Lists(order + [k], TagKeys(seen + {k}));
      assert tags + [meta[k]] == Pick(order + [k], meta);
    } else {
      assert TagKeys(seen + {k}) == TagKeys(seen);
    }
  }

  // ---- round trip ----

  /** The servers map is keyed by server name. */
  ghost predicate KeyedByName(servers: map<string, Server>) {
    forall n :: n in servers ==> servers[n].name == n
  }

  /** The instance survives, except for the fields Register does not write and the order
      of the tags. */
  ghost predicate Recovered(x: Instance, y: Instance) {
    && y.id == x.id && y.serviceName == x.serviceName
    && y.managerAddress == x.managerAddress && y.managerPort == x.managerPort
    && y.topics == x.topics && y.metadata == x.metadata
    && multiset(y.tags) == multiset(x.tags)
  }

  lemma MetadataRoundTrip(meta: map<string, string>, a: map<string, string>, b: map<string, string>)
    requires MetadataIn(a, meta) && MetadataOut(meta, meta.Keys, b)
    ensures a == b
  {
    forall n ensures n in a <==> n in b {
      PrefixedKeys(n);
    }
  }

  lemma TopicsRoundTrip(c: Codec, meta: map<string, string>, a: map<string, Topic>, b: map<string, Topic>)
    requires Faithful(c) && TopicsIn(c, a, meta) && TopicsOut(c, meta, meta.Keys, b)
    ensures a == b
  {
    forall n ensures n in a <==> n in b {
      PrefixedKeys(n);
    }
  }

  lemma TagsRoundTrip(meta: map<string, string>, a: seq<string>, b: seq<string>)
    requires TagsIn(a, meta) && TagsOut(meta, meta.Keys, b)
    ensures multiset(a) == multiset(b)
  {
    var order :| Lists(order, TagKeys(meta.Keys)) && b == Pick(order, meta);
    var canonical := seq(|a|, i requires 0 <= i < |a| => TagKey(i));
    forall i, j | 0 <= i < j < |canonical| ensures canonical[i] != canonical[j] {
      TagKeyInjective(i, j);
    }
    forall i | 0 <= i < |a| ensures HasPrefix(canonical[i], TAG) {
      PrefixedKeys(Decimal(i));
    }
    forall k | k in TagKeys(meta.Keys) ensures k in canonical {
      var i :| 0 <= i < |a| && k == TagKey(i);
      assert canonical[i] == k;
    }
    assert Lists(canonical, TagKeys(meta.Keys));
    ListingsPermute(order, canonical, TagKeys(meta.Keys));
    PickPermutes(order, canonical, meta);
    assert Pick(canonical, meta) == a;
  }

  /** The i-th tag decodes to the server that `order` visits i-th. */
  ghost predicate TagsOf(c: Codec, tags: seq<string>, order: seq<string>, servers: map<string, Server>) {
    && |tags| == |order|
    && forall i :: 0 <= i < |order| ==> order[i] in servers && c.decodeServer(tags[i]) == Some(servers[order[i]])
  }

  lemma NamedComeBack(c: Codec, tags: seq<string>, order: seq<string>, servers: map<string, Server>,
                      out: map<string, Server>)
    requires TagsOf(c, tags, order, servers) && ServersOut(c, tags, out) && KeyedByName(servers)
    requires forall n :: n in servers ==> n in order
    ensures out == servers
  {
    forall n | n in servers ensures n in out {
      var i :| 0 <= i < |order| && order[i] == n;
      assert Named(c, tags[i], n);
    }
    forall n | n in out ensures n in servers && out[n] == servers[n] {
      var i :| LastNamed(c, tags, i, n) && c.decodeServer(tags[i]) == Some(out[n]);
      assert order[i] in servers;
    }
  }

  lemma OutIsKeyedByName(c: Codec, tags: seq<string>, out: map<string, Server>)
    requires ServersOut(c, tags, out)
    ensures KeyedByName(out)
  {
    forall n | n in out ensures out[n].name == n {
      var i :| LastNamed(c, tags, i, n) && c.decodeServer(tags[i]) == Some(out[n]);
    }
  }

  /** The servers come back exactly when they were keyed by their names. */
  lemma ServersRoundTripIff(c: Codec, servers: map<string, Server>, order: seq<string>, out: map<string, Server>)
    requires Faithful(c) && Lists(order, servers.Keys)
    requires ServersOut(c, Pick(order, EncodedServers(c, servers)), out)
    ensures out == servers <==> KeyedByName(servers)
  {
    var tags := Pick(order, EncodedServers(c, servers));
    assert TagsOf(c, tags, order, servers);
    hide ServersOut, Faithful;
    OutIsKeyedByName(c, tags, out);
    if KeyedByName(servers) {
      NamedComeBack(c, tags, order, servers, out);
    }
  }

  /** Consul round trip, for every map iteration order on both sides. */
  lemma RoundTrip(c: Codec, x: Instance, reg: Registration, y: Instance)
    requires Faithful(c) && Encodes(c, x, reg) && Decodes(c, reg, y)
    ensures Recovered(x, y)
    ensures y.servers == x.servers <==> KeyedByName(x.servers)
  {
    MetadataRoundTrip(reg.meta, x.metadata, y.metadata);
    TopicsRoundTrip(c, reg.meta, x.topics, y.topics);
    TagsRoundTrip(reg.meta, x.tags, y.tags);
    var order :| Lists(order, x.servers.Keys) && reg.tags == Pick(order, EncodedServers(c, x.servers));
    ServersRoundTripIff(c, x.servers, order, y.servers);
  }

  // ---- the agent ----

  /** The services whose ID parses as a UUID. */
  function Parseable(c: Codec, services: map<string, Registration>): set<string> {
    set k | k in services && c.parseId(services[k].id).Some?
  }

  /** One instance for each service whose ID parses, and nothing else. */
  ghost predicate LoadedFrom(c: Codec, services: map<string, Registration>, ins: seq<Instance>) {
    exists order :: Lists(order, Parseable(c, services)) && LoadedInOrder(c, services, order, ins)
  }

  ghost predicate LoadedInOrder(c: Codec, services: map<string, Registration>, order: seq<string>, ins: seq<Instance>) {
    |order| == |ins| && forall i :: 0 <= i < |ins| ==> order[i] in services && Decodes(c, services[order[i]], ins[i])
  }

  /** The local Consul agent, holding services by their ID. */
  class Agent {
    const codec: Codec
    var services: map<string, Registration>

    constructor (codec: Codec)
      ensures this.codec == codec && services == map[]
    {
      this.codec := codec;
      services := map[];
    }

    /** Consul.Register; `accepted` is the agent's answer. */
    method Register(x: Instance, accepted: bool) returns (ok: bool)
      modifies this
      ensures ok == accepted
      ensures ok ==> exists reg :: Encodes(codec, x, reg) && services == old(services)[codec.printId(x.id) := reg]
      ensures !ok ==> services == old(services)
    {
      var reg := Encode(codec, x);
      if accepted {
        services := services[reg.id := reg];
      }
      ok := accepted;
    }

    method Deregister(id: UUID, accepted: bool) returns (ok: bool)
      modifies this
      ensures ok == accepted
      ensures services == if ok then old(services) - {codec.printId(id)} else old(services)
    {
      if accepted {
        services := services - {codec.printId(id)};
      }
      ok := accepted;
    }

    /** Consul.Load; None is the error of an agent that does not answer. */
    method Load(answers: bool) returns (loaded: Option<seq<Instance>>)
      ensures loaded.Some? <==> answers
      ensures loaded.Some? ==> LoadedFrom(codec, services, loaded.value)
    {
      if !answers {
        return None;
      }
      var ins := LoadAll();
      loaded := Some(ins);
    }

    method LoadAll() returns (ins: seq<Instance>)
      ensures LoadedFrom(codec, services, ins)
    {
      ins := [];
      var order := AnyOrder(services.Keys);
      ghost var kept: seq<string> := [];
      for i := 0 to |order|
        invariant forall k :: k in kept <==> k in order[..i] && k in Parseable(codec, services)
        invariant forall a, b :: 0 <= a < b < |kept| ==> kept[a] != kept[b]
        invariant LoadedInOrder(codec, services, kept, ins)
      {
        assert order[..i + 1] == order[..i] + [order[i]];
        var r := Decode(codec, services[order[i]]);
        if r.Some? {
          assert order[i] !in order[..i];
          ins := ins + [r.value];
          kept := kept + [order[i]];
        }
      }
      assert order[..|order|] == order;
      assert Lists(kept, Parseable(codec, services));
    }
  }
}
