/**
 Configuration fingerprints: which fields of an upstream or a route enter the hashed stream, in which form, and when
 two configurations therefore share a stream.
 */
module Fingerprint {
  import opened Wrappers
  import opened Sorting
  import opened Texts
  import opened Decimal
  import opened CanonicalJson
  import opened NodeAddr

  datatype Profile = HealthCheck | CacheOrigin

  /** The bytes of an ASCII literal. */
  function Ascii(s: string): Text {
    seq(|s|, i requires 0 <= i < |s| => if s[i] < 128 as char then s[i] as int else 0)
  }

  const UPSTREAM_HEALTH_CHECK_EXCLUDED: seq<Text> :=
    [Ascii("id"), Ascii("retries"), Ascii("retry_timeout"), Ascii("timeout"), Ascii("type"), Ascii("hash_on"),
     Ascii("key"), Ascii("pass_host"), Ascii("upstream_host"), Ascii("tls"), Ascii("keepalive_pool")]

  const UPSTREAM_CACHE_ORIGIN_EXCLUDED: seq<Text> := [Ascii("checks"), Ascii("keepalive_pool")]

  const ROUTE_CACHE_NAMESPACE_EXCLUDED: seq<Text> :=
    [Ascii("name"), Ascii("methods"), Ascii("upstream"), Ascii("upstream_id"), Ascii("enable_websocket")]

  const SERVICE_CACHE_NAMESPACE_EXCLUDED: seq<Text> :=
    [Ascii("name"), Ascii("hosts"), Ascii("upstream"), Ascii("upstream_id")]

  datatype ClientIdentity = ClientIdentity(cert: Text, key: Text)

  /** An upstream: its serialized fields, and the typed parts the projection reads itself. */
  datatype Upstream = Upstream(fields: map<Text, Json>, nodes: seq<Node>, scheme: Scheme, tls: Option<ClientIdentity>)

  function Excluded(profile: Profile): seq<Text> {
    if profile.HealthCheck? then UPSTREAM_HEALTH_CHECK_EXCLUDED else UPSTREAM_CACHE_ORIGIN_EXCLUDED
  }

  // ----- the projection of the nodes -----

  function SignedDec(i: int): Text {
    if i < 0 then [0x2D] + Dec(-i) else Dec(i)
  }

  function ProjectNode(n: Node, scheme: Scheme, profile: Profile): Json {
    Array([String(BareHost(n)), Number(Dec(EffectivePort(n, scheme)))]
          + if profile.CacheOrigin? then [Number(Dec(n.weight)), Number(SignedDec(n.priority))] else [])
  }

  function NodeProjection(scheme: Scheme, profile: Profile): Node -> Json {
    (n: Node) => ProjectNode(n, scheme, profile)
  }

  /** The nodes by sort key, projected: bare host and effective port, weight and priority only for the cache origin. */
  function ProjectedNodes(nodes: seq<Node>, scheme: Scheme, profile: Profile): seq<Json> {
    Map(NodeProjection(scheme, profile), SortBy(nodes, NodeOrder()))
  }

  // The same list in terms of sort keys: what of each key the projection shows.

  function ShownPart(scheme: Scheme, profile: Profile): SortKey -> SortKey {
    (k: SortKey) => SortKey(k.host, if k.port == 0 then DefaultPort(scheme) else k.port,
                            if profile.CacheOrigin? then k.weight else 0,
                            if profile.CacheOrigin? then k.priority else 0)
  }

  function Shown(nodes: seq<Node>, scheme: Scheme, profile: Profile): seq<SortKey> {
    Map(ShownPart(scheme, profile), SortedKeysOf(nodes))
  }

  lemma {:induction false} DecInjective(m: nat, n: nat)
    requires Dec(m) == Dec(n)
    ensures m == n
  {
    ValueOfDec(m);
    ValueOfDec(n);
  }

  lemma {:induction false} SignedDecInjective(i: int, j: int)
    requires SignedDec(i) == SignedDec(j)
    ensures i == j
  {
    assert i >= 0 ==> IsDigit(Dec(i)[0]);
    assert j >= 0 ==> IsDigit(Dec(j)[0]);
    if i < 0 && j < 0 {
      assert SignedDec(i)[1..] == Dec(-i) && SignedDec(j)[1..] == Dec(-j);
      DecInjective(-i, -j);
    } else if i >= 0 && j >= 0 {
      DecInjective(i, j);
    }
  }

  /** The fields of a projected node are those of the shown part of its key, written out. */
  function ShownFields(k: SortKey, profile: Profile): seq<Json> {
    [String(k.host), Number(Dec(k.port))]
    + if profile.CacheOrigin? then [Number(Dec(k.weight)), Number(SignedDec(k.priority))] else []
  }

  lemma {:induction false} ProjectsShownFields(n: Node, scheme: Scheme, profile: Profile)
    ensures ProjectNode(n, scheme, profile) == Array(ShownFields(ShownPart(scheme, profile)(KeyOf(n)), profile))
  {
  }

  lemma {:induction false} ShownFieldsIdentify(k: SortKey, l: SortKey, profile: Profile)
    requires ShownFields(k, profile) == ShownFields(l, profile)
    requires profile.HealthCheck? ==> k.weight == l.weight && k.priority == l.priority
    ensures k == l
  {
    var a, b := ShownFields(k, profile), ShownFields(l, profile);
    assert a[0] == b[0] && a[1] == b[1];
    DecInjective(k.port, l.port);
    if profile.CacheOrigin? {
      assert a[2] == b[2] && a[3] == b[3];
      DecInjective(k.weight, l.weight);
      SignedDecInjective(k.priority, l.priority);
    }
  }

  /** Two nodes project alike exactly when the shown parts of their keys agree. */
  lemma {:induction false} ProjectionShowsKey(m: Node, n: Node, scheme: Scheme, scheme': Scheme, profile: Profile)
    ensures ProjectNode(m, scheme, profile) == ProjectNode(n, scheme', profile)
            <==> ShownPart(scheme, profile)(KeyOf(m)) == ShownPart(scheme', profile)(KeyOf(n))
  {
    ProjectsShownFields(m, scheme, profile);
    ProjectsShownFields(n, scheme', profile);
    if ProjectNode(m, scheme, profile) == ProjectNode(n, scheme', profile) {
      ShownFieldsIdentify(ShownPart(scheme, profile)(KeyOf(m)), ShownPart(scheme', profile)(KeyOf(n)), profile);
    }
  }

  lemma {:induction false} ShownAt(nodes: seq<Node>, scheme: Scheme, profile: Profile, i: nat)
    requires i < |nodes|
    ensures |SortBy(nodes, NodeOrder())| == |Shown(nodes, scheme, profile)| == |nodes|
    ensures Shown(nodes, scheme, profile)[i] == ShownPart(scheme, profile)(KeyOf(SortBy(nodes, NodeOrder())[i]))
  {
    SortByMaps(nodes, NodeOrder(), KeyFunction(), NodeKeyOrder());
    SortLength(nodes, NodeOrder());
  }

  lemma {:induction false} SortLength<T>(s: seq<T>, le: (T, T) -> bool)
    ensures |SortBy(s, le)| == |s|
  {
    if s != [] {
      SortLength(s[1..], le);
      InsertLength(SortBy(s[1..], le), s[0], le);
    }
  }

  lemma {:induction false} InsertLength<T>(s: seq<T>, x: T, le: (T, T) -> bool)
    ensures |InsertBy(s, x, le)| == |s| + 1
  {
    if s != [] && !le(x, s[0]) {
      InsertLength(s[1..], x, le);
    }
  }

  /** The projected node lists of two upstreams agree exactly when the shown keys do. */
  lemma {:induction false} ProjectedIffShown(nodes: seq<Node>, scheme: Scheme, nodes': seq<Node>, scheme': Scheme,
                                             profile: Profile)
    ensures ProjectedNodes(nodes, scheme, profile) == ProjectedNodes(nodes', scheme', profile)
            <==> Shown(nodes, scheme, profile) == Shown(nodes', scheme', profile)
  {
    ShownIsMapped(nodes, scheme, profile);
    ShownIsMapped(nodes', scheme', profile);
    forall m, n
      ensures NodeProjection(scheme, profile)(m) == NodeProjection(scheme', profile)(n)
              <==> ShownOf(scheme, profile)(m) == ShownOf(scheme', profile)(n)
    {
      ProjectionShowsKey(m, n, scheme, scheme', profile);
    }
    MapsAgree(NodeProjection(scheme, profile), NodeProjection(scheme', profile), ShownOf(scheme, profile),
              ShownOf(scheme', profile), SortBy(nodes, NodeOrder()), SortBy(nodes', NodeOrder()));
  }

  /** The shown part of a node's key. */
  function ShownOf(scheme: Scheme, profile: Profile): Node -> SortKey {
    (n: Node) => ShownPart(scheme, profile)(KeyOf(n))
  }

  lemma {:induction false} ShownIsMapped(nodes: seq<Node>, scheme: Scheme, profile: Profile)
    ensures Shown(nodes, scheme, profile) == Map(ShownOf(scheme, profile), SortBy(nodes, NodeOrder()))
  {
    SortByMaps(nodes, NodeOrder(), KeyFunction(), NodeKeyOrder());
  }

  /** Two pairs of maps that tell the same elements apart agree on the same sequences. */
  lemma {:induction false} MapsAgree<T(!new), U, V>(f: T -> U, f': T -> U, g: T -> V, g': T -> V, s: seq<T>, s': seq<T>)
    requires forall x, y :: f(x) == f'(y) <==> g(x) == g'(y)
    ensures Map(f, s) == Map(f', s') <==> Map(g, s) == Map(g', s')
  {
    if |s| == |s'| {
      assert forall i :: 0 <= i < |s| ==> (Map(f, s)[i] == Map(f', s')[i] <==> Map(g, s)[i] == Map(g', s')[i]);
    }
  }

  /** The order in which the nodes are configured never shows. */
  lemma {:induction false} NodeOrderDoesNotShow(nodes: seq<Node>, nodes': seq<Node>, scheme: Scheme, profile: Profile)
    requires multiset(nodes) == multiset(nodes')
    ensures ProjectedNodes(nodes, scheme, profile) == ProjectedNodes(nodes', scheme, profile)
  {
    MapMultiset(KeyFunction(), nodes, nodes');
    NodeKeyOrderIsTotal();
    SortForgetsOrder(Map(KeyFunction(), nodes), Map(KeyFunction(), nodes'), NodeKeyOrder());
    ProjectedIffShown(nodes, scheme, nodes', scheme, profile);
  }

  // ----- writing the scheme-default port explicitly -----

  /** Node `i` had no port and now names the scheme default; the others are untouched. */
  predicate Rewritten(nodes: seq<Node>, nodes': seq<Node>, scheme: Scheme, i: nat)
    requires |nodes| == |nodes'| && i < |nodes|
  {
    nodes[i].port.None? && nodes'[i] == nodes[i].(port := Some(DefaultPort(scheme)))
  }

  ghost predicate RewritesPorts(nodes: seq<Node>, nodes': seq<Node>, scheme: Scheme) {
    && |nodes| == |nodes'|
    && forall i :: 0 <= i < |nodes| ==> nodes'[i] == nodes[i] || Rewritten(nodes, nodes', scheme, i)
  }

  /** `a` before `b` by weight and priority. */
  predicate Lighter(a: SortKey, b: SortKey) {
    a.weight < b.weight || (a.weight == b.weight && a.priority < b.priority)
  }

  /**
   Rewriting node `i` moves it past node `j` of the same host, and the projection can tell: `j` names a port below
   the default; or, for the cache origin, `j` still omits its port and is heavier, or names the default and is lighter.
   */
  predicate Overtakes(nodes: seq<Node>, nodes': seq<Node>, scheme: Scheme, profile: Profile, i: nat, j: nat)
    requires |nodes| == |nodes'| && i < |nodes| && j < |nodes|
  {
    var d: nat := DefaultPort(scheme);
    var ki, kj := KeyOf(nodes[i]), KeyOf(nodes[j]);
    && Rewritten(nodes, nodes', scheme, i)
    && ki.host == kj.host
    && (0 < kj.port < d
        || (profile.CacheOrigin? && kj.port == 0 && nodes'[j] == nodes[j] && Lighter(ki, kj))
        || (profile.CacheOrigin? && kj.port == d && Lighter(kj, ki)))
  }

  /** Hosts of rewritten nodes. */
  ghost predicate Touched(nodes: seq<Node>, nodes': seq<Node>, scheme: Scheme, host: Text)
    requires |nodes| == |nodes'|
  {
    exists i :: 0 <= i < |nodes| && Rewritten(nodes, nodes', scheme, i) && BareHost(nodes[i]) == host
  }

  /** A key with its port resolved if its host is `touched`, and only what the profile shows of the rest. */
  function Resolved(scheme: Scheme, profile: Profile, touched: Text -> bool): SortKey -> SortKey {
    (k: SortKey) =>
      SortKey(k.host, if k.port == 0 && touched(k.host) then DefaultPort(scheme) else k.port,
              if profile.CacheOrigin? then k.weight else 0, if profile.CacheOrigin? then k.priority else 0)
  }

  lemma {:induction false} ShownFromResolved(k: SortKey, scheme: Scheme, profile: Profile, touched: Text -> bool)
    ensures ShownPart(scheme, profile)(Resolved(scheme, profile, touched)(k)) == ShownPart(scheme, profile)(k)
  {
  }

  ghost predicate NoOvertaking(nodes: seq<Node>, nodes': seq<Node>, scheme: Scheme, profile: Profile)
    requires |nodes| == |nodes'|
  {
    forall i, j :: 0 <= i < |nodes| && 0 <= j < |nodes| ==> !Overtakes(nodes, nodes', scheme, profile, i, j)
  }

  // Without overtaking, both key lists stay sorted when ports are resolved, so they resolve to the same list.

  ghost function TouchedBy(nodes: seq<Node>, nodes': seq<Node>, scheme: Scheme): Text -> bool
    requires |nodes| == |nodes'|
  {
    (h: Text) => Touched(nodes, nodes', scheme, h)
  }

  lemma {:induction false} ResolvedPair(nodes: seq<Node>, nodes': seq<Node>, scheme: Scheme, profile: Profile,
                                        after: bool, i: nat, j: nat)
    requires RewritesPorts(nodes, nodes', scheme) && NoOvertaking(nodes, nodes', scheme, profile)
    requires i < |nodes| && j < |nodes|
    requires KeyLe(KeyOf(if after then nodes'[i] else nodes[i]), KeyOf(if after then nodes'[j] else nodes[j]))
    ensures var r := Resolved(scheme, profile, TouchedBy(nodes, nodes', scheme));
            KeyLe(r(KeyOf(if after then nodes'[i] else nodes[i])), r(KeyOf(if after then nodes'[j] else nodes[j])))
  {
    var h := BareHost(nodes[i]);
    if BareHost(nodes[j]) != h {
      assert KeyOf(nodes[i]).host == KeyOf(nodes'[i]).host && KeyOf(nodes[j]).host == KeyOf(nodes'[j]).host;
    } else if Touched(nodes, nodes', scheme, h) {
      var t :| 0 <= t < |nodes| && Rewritten(nodes, nodes', scheme, t) && BareHost(nodes[t]) == h;
      ResolvedOnHost(nodes, nodes', scheme, profile, after, i, j, t);
    }
  }

  /** Two nodes of a host on which node `t` is rewritten. */
  lemma {:induction false} ResolvedOnHost(nodes: seq<Node>, nodes': seq<Node>, scheme: Scheme, profile: Profile,
                                          after: bool, i: nat, j: nat, t: nat)
    requires RewritesPorts(nodes, nodes', scheme) && NoOvertaking(nodes, nodes', scheme, profile)
    requires i < |nodes| && j < |nodes| && t < |nodes| && Rewritten(nodes, nodes', scheme, t)
    requires BareHost(nodes[i]) == BareHost(nodes[j]) == BareHost(nodes[t])
    requires KeyLe(KeyOf(if after then nodes'[i] else nodes[i]), KeyOf(if after then nodes'[j] else nodes[j]))
    ensures var r := Resolved(scheme, profile, TouchedBy(nodes, nodes', scheme));
            KeyLe(r(KeyOf(if after then nodes'[i] else nodes[i])), r(KeyOf(if after then nodes'[j] else nodes[j])))
  {
    assert Touched(nodes, nodes', scheme, BareHost(nodes[t]));
    assert !Overtakes(nodes, nodes', scheme, profile, t, j) && !Overtakes(nodes, nodes', scheme, profile, t, i);
    assert !Overtakes(nodes, nodes', scheme, profile, i, j) && !Overtakes(nodes, nodes', scheme, profile, j, i);
  }

  lemma {:induction false} KeyOrigin(nodes: seq<Node>, x: nat) returns (i: nat)
    requires x < |SortedKeysOf(nodes)|
    ensures i < |nodes| && SortedKeysOf(nodes)[x] == KeyOf(nodes[i])
  {
    var keys := Map(KeyFunction(), nodes);
    NodeKeyOrderIsTotal();
    SortBySorts(keys, NodeKeyOrder());
    assert SortedKeysOf(nodes)[x] in multiset(keys);
    i :| 0 <= i < |keys| && keys[i] == SortedKeysOf(nodes)[x];
  }

  lemma {:induction false} ResolvedSorted(nodes: seq<Node>, nodes': seq<Node>, scheme: Scheme, profile: Profile,
                                          after: bool)
    requires RewritesPorts(nodes, nodes', scheme) && NoOvertaking(nodes, nodes', scheme, profile)
    ensures var r := Resolved(scheme, profile, TouchedBy(nodes, nodes', scheme));
            SortedBy(Map(r, SortedKeysOf(if after then nodes' else nodes)), NodeKeyOrder())
  {
    var side := if after then nodes' else nodes;
    var ks := SortedKeysOf(side);
    NodeKeyOrderIsTotal();
    SortBySorts(Map(KeyFunction(), side), NodeKeyOrder());
    var r := Resolved(scheme, profile, TouchedBy(nodes, nodes', scheme));
    forall x, y | 0 <= x < y < |ks| ensures NodeKeyOrder()(r(ks[x]), r(ks[y])) {
      var i := KeyOrigin(side, x);
      var j := KeyOrigin(side, y);
      assert NodeKeyOrder()(ks[x], ks[y]);
      ResolvedPair(nodes, nodes', scheme, profile, after, i, j);
    }
  }

  lemma {:induction false} RewritesResolveAlike(nodes: seq<Node>, nodes': seq<Node>, scheme: Scheme, profile: Profile)
    requires RewritesPorts(nodes, nodes', scheme)
    ensures var r := Resolved(scheme, profile, TouchedBy(nodes, nodes', scheme));
            Map(r, Map(KeyFunction(), nodes)) == Map(r, Map(KeyFunction(), nodes'))
  {
    var r := Resolved(scheme, profile, TouchedBy(nodes, nodes', scheme));
    forall i | 0 <= i < |nodes| ensures r(KeyOf(nodes[i])) == r(KeyOf(nodes'[i])) {
      if Rewritten(nodes, nodes', scheme, i) {
        assert Touched(nodes, nodes', scheme, BareHost(nodes[i]));
      }
    }
  }

  lemma {:induction false} SortedKeysPermute(nodes: seq<Node>, r: SortKey -> SortKey)
    ensures multiset(Map(r, SortedKeysOf(nodes))) == multiset(Map(r, Map(KeyFunction(), nodes)))
  {
    NodeKeyOrderIsTotal();
    SortBySorts(Map(KeyFunction(), nodes), NodeKeyOrder());
    MapMultiset(r, SortedKeysOf(nodes), Map(KeyFunction(), nodes));
  }

  lemma {:induction false} ResolvedAgree(nodes: seq<Node>, nodes': seq<Node>, scheme: Scheme, profile: Profile)
    requires RewritesPorts(nodes, nodes', scheme) && NoOvertaking(nodes, nodes', scheme, profile)
    ensures var r := Resolved(scheme, profile, TouchedBy(nodes, nodes', scheme));
            Map(r, SortedKeysOf(nodes)) == Map(r, SortedKeysOf(nodes'))
  {
    var r := Resolved(scheme, profile, TouchedBy(nodes, nodes', scheme));
    ResolvedSorted(nodes, nodes', scheme, profile, false);
    ResolvedSorted(nodes, nodes', scheme, profile, true);
    RewritesResolveAlike(nodes, nodes', scheme, profile);
    SortedKeysPermute(nodes, r);
    SortedKeysPermute(nodes', r);
    NodeKeyOrderIsTotal();
    AnySortAgrees(Map(r, SortedKeysOf(nodes)), Map(r, SortedKeysOf(nodes')), NodeKeyOrder());
  }

  lemma {:induction false} NoOvertakingNoChange(nodes: seq<Node>, nodes': seq<Node>, scheme: Scheme, profile: Profile)
    requires RewritesPorts(nodes, nodes', scheme) && NoOvertaking(nodes, nodes', scheme, profile)
    ensures Shown(nodes, scheme, profile) == Shown(nodes', scheme, profile)
  {
    ResolvedAgree(nodes, nodes', scheme, profile);
    ShownThroughResolved(SortedKeysOf(nodes), SortedKeysOf(nodes'), scheme, profile, TouchedBy(nodes, nodes', scheme));
  }

  lemma {:induction false} ShownThroughResolved(ks: seq<SortKey>, ks': seq<SortKey>, scheme: Scheme, profile: Profile,
                                                touched: Text -> bool)
    requires Map(Resolved(scheme, profile, touched), ks) == Map(Resolved(scheme, profile, touched), ks')
    ensures Map(ShownPart(scheme, profile), ks) == Map(ShownPart(scheme, profile), ks')
  {
    var r := Resolved(scheme, profile, touched);
    assert |ks| == |Map(r, ks)| == |Map(r, ks')| == |ks'|;
    forall x | 0 <= x < |ks|
      ensures ShownPart(scheme, profile)(ks[x]) == ShownPart(scheme, profile)(ks'[x])
    {
      assert Map(r, ks)[x] == Map(r, ks')[x];
      ShownFromResolved(ks[x], scheme, profile, touched);
      ShownFromResolved(ks'[x], scheme, profile, touched);
    }
  }

  // With overtaking, some position shows a different node.

  /** The keys that a sorted list puts before: earlier hosts, and on `host` what `within` accepts. */
  function Before(host: Text, within: SortKey -> bool): SortKey -> bool {
    (k: SortKey) => if k.host == host then within(k) else TextLe(k.host, host)
  }

  ghost predicate DownwardOn(host: Text, within: SortKey -> bool) {
    forall a: SortKey, b: SortKey ::
      a.host == host && b.host == host && KeyLe(a, b) && within(b) ==> within(a)
  }

  lemma {:induction false} BeforeIsDownward(host: Text, within: SortKey -> bool)
    requires DownwardOn(host, within)
    ensures forall a: SortKey, b: SortKey :: NodeKeyOrder()(a, b) && Before(host, within)(b) ==> Before(host, within)(a)
  {
    forall a: SortKey, b: SortKey | KeyLe(a, b) && Before(host, within)(b) ensures Before(host, within)(a) {
      if a.host != host && b.host != host && a.host != b.host {
        TextLeTransitive(a.host, b.host, host);
      }
      if a.host == host && b.host != host {
        TextLeTotal(a.host, b.host);
      }
    }
  }

  /** Where the keys of a node list end up relative to such a cut. */
  lemma {:induction false} CutAt(nodes: seq<Node>, host: Text, within: SortKey -> bool, x: nat)
    requires DownwardOn(host, within)
    requires x < |nodes|
    ensures |SortedKeysOf(nodes)| == |nodes|
    ensures Before(host, within)(SortedKeysOf(nodes)[x])
            <==> x < Count(Map(KeyFunction(), nodes), Before(host, within))
  {
    var keys := Map(KeyFunction(), nodes);
    SortLength(keys, NodeKeyOrder());
    BeforeIsDownward(host, within);
    NodeKeyOrderIsTotal();
    SortBySorts(keys, NodeKeyOrder());
    CountSorted(keys, NodeKeyOrder(), Before(host, within));
    CountIsPrefix(SortedKeysOf(nodes), NodeKeyOrder(), Before(host, within), x);
  }

  /** Position `x` holds a key at most that of node `j` if that key is not before the cut that ends at `x`. */
  lemma {:induction false} AtCut(nodes: seq<Node>, host: Text, within: SortKey -> bool, j: nat)
    requires DownwardOn(host, within)
    requires j < |nodes| && !Before(host, within)(KeyOf(nodes[j]))
    ensures var x := Count(Map(KeyFunction(), nodes), Before(host, within));
            && x < |nodes| == |SortedKeysOf(nodes)|
            && !Before(host, within)(SortedKeysOf(nodes)[x])
            && KeyLe(SortedKeysOf(nodes)[x], KeyOf(nodes[j]))
  {
    var ks := SortedKeysOf(nodes);
    var y := KeyPlace(nodes, j);
    CutAt(nodes, host, within, y);
    var x := Count(Map(KeyFunction(), nodes), Before(host, within));
    CutAt(nodes, host, within, x);
    NodeKeyOrderIsTotal();
    SortBySorts(Map(KeyFunction(), nodes), NodeKeyOrder());
    assert NodeKeyOrder()(ks[x], ks[x]);
    assert NodeKeyOrder()(ks[x], ks[y]);
  }

  lemma {:induction false} KeyPlace(nodes: seq<Node>, j: nat) returns (y: nat)
    requires j < |nodes|
    ensures y < |SortedKeysOf(nodes)| == |nodes| && SortedKeysOf(nodes)[y] == KeyOf(nodes[j])
  {
    var keys := Map(KeyFunction(), nodes);
    NodeKeyOrderIsTotal();
    SortBySorts(keys, NodeKeyOrder());
    SortLength(keys, NodeKeyOrder());
    assert keys[j] in multiset(SortedKeysOf(nodes));
    y :| 0 <= y < |keys| && SortedKeysOf(nodes)[y] == keys[j];
  }

  /** The keys of one host that an overtaken node `k` separates from the rewritten node: three kinds of cut. */
  function OmittedOnly(): SortKey -> bool {
    (k: SortKey) => k.port == 0
  }

  function OmittedUpTo(limit: SortKey): SortKey -> bool {
    (k: SortKey) => k.port == 0 && !Lighter(limit, k)
  }

  function DefaultUpTo(d: nat, limit: SortKey): SortKey -> bool {
    (k: SortKey) => k.port < d || (k.port == d && !Lighter(limit, k))
  }

  lemma {:induction false} CountFalls(nodes: seq<Node>, nodes': seq<Node>, p: SortKey -> bool, i: nat)
    requires |nodes| == |nodes'| && i < |nodes| && p(KeyOf(nodes[i])) && !p(KeyOf(nodes'[i]))
    requires forall t :: 0 <= t < |nodes| ==> p(KeyOf(nodes'[t])) ==> p(KeyOf(nodes[t]))
    ensures Count(Map(KeyFunction(), nodes'), p) < Count(Map(KeyFunction(), nodes), p) <= |nodes|
  {
    var keys, keys' := Map(KeyFunction(), nodes), Map(KeyFunction(), nodes');
    assert p(keys[i]) && !p(keys'[i]);
    CountDrops(keys, keys', p);
    CountBound(keys, p);
  }

  lemma {:induction false} CountBound<T>(s: seq<T>, p: T -> bool)
    ensures Count(s, p) <= |s|
  {
    if s != [] { CountBound(s[1..], p); }
  }

  /** Overtaking an explicit port below the default, or a heavier node that still omits its port. */
  lemma {:induction false} OvertakingEarlyShows(nodes: seq<Node>, nodes': seq<Node>, scheme: Scheme, profile: Profile,
                                                i: nat, j: nat,
                             within: SortKey -> bool)
    requires RewritesPorts(nodes, nodes', scheme) && i < |nodes| && j < |nodes|
    requires Rewritten(nodes, nodes', scheme, i) && BareHost(nodes[i]) == BareHost(nodes[j])
    requires nodes'[j] == nodes[j]
    requires || (within == OmittedOnly() && 0 < KeyOf(nodes[j]).port < DefaultPort(scheme))
             || (within == OmittedUpTo(KeyOf(nodes[i])) && profile.CacheOrigin?
                 && KeyOf(nodes[j]).port == 0 && Lighter(KeyOf(nodes[i]), KeyOf(nodes[j])))
    ensures Shown(nodes, scheme, profile) != Shown(nodes', scheme, profile)
  {
    var h := BareHost(nodes[i]);
    var p := Before(h, within);
    forall t | 0 <= t < |nodes| && p(KeyOf(nodes'[t])) ensures p(KeyOf(nodes[t])) {
      assert nodes'[t] == nodes[t] || Rewritten(nodes, nodes', scheme, t);
    }
    CountFalls(nodes, nodes', p, i);
    AtCut(nodes', h, within, j);
    var x := Count(Map(KeyFunction(), nodes'), p);
    CutAt(nodes, h, within, x);
    var a, b := SortedKeysOf(nodes)[x], SortedKeysOf(nodes')[x];
    assert p(a) && !p(b) && KeyLe(b, KeyOf(nodes[j]));
    TextLeTotal(b.host, h);
    assert b.host == h;
    assert ShownPart(scheme, profile)(a) != ShownPart(scheme, profile)(b);
    assert Shown(nodes, scheme, profile)[x] != Shown(nodes', scheme, profile)[x];
  }

  /** Overtaking a lighter node that names the default port. */
  lemma {:induction false} OvertakingLateShows(nodes: seq<Node>, nodes': seq<Node>, scheme: Scheme, i: nat, j: nat)
    requires RewritesPorts(nodes, nodes', scheme) && i < |nodes| && j < |nodes|
    requires Rewritten(nodes, nodes', scheme, i) && BareHost(nodes[i]) == BareHost(nodes[j])
    requires KeyOf(nodes[j]).port == DefaultPort(scheme) && Lighter(KeyOf(nodes[j]), KeyOf(nodes[i]))
    ensures Shown(nodes, scheme, CacheOrigin) != Shown(nodes', scheme, CacheOrigin)
  {
    var h, kj := BareHost(nodes[i]), KeyOf(nodes[j]);
    var within := DefaultUpTo(DefaultPort(scheme), kj);
    var p := Before(h, within);
    forall t | 0 <= t < |nodes| && p(KeyOf(nodes'[t])) ensures p(KeyOf(nodes[t])) {
      assert nodes'[t] == nodes[t] || Rewritten(nodes, nodes', scheme, t);
    }
    CountFalls(nodes, nodes', p, i);
    var x := Count(Map(KeyFunction(), nodes), p) - 1;
    CutAt(nodes, h, within, x);
    CutAt(nodes', h, within, x);
    var a, b := SortedKeysOf(nodes)[x], SortedKeysOf(nodes')[x];
    LastBeforeCut(nodes, h, within, j);
    TextLeTotal(a.host, h);
    assert p(a) && !p(b) && KeyLe(kj, a) && a.host == h;
    assert ShownPart(scheme, CacheOrigin)(a) != ShownPart(scheme, CacheOrigin)(b);
    assert Shown(nodes, scheme, CacheOrigin)[x] != Shown(nodes', scheme, CacheOrigin)[x];
  }

  /** The last key before a cut is at least every key before it. */
  lemma {:induction false} LastBeforeCut(nodes: seq<Node>, host: Text, within: SortKey -> bool, j: nat)
    requires DownwardOn(host, within)
    requires j < |nodes| && Before(host, within)(KeyOf(nodes[j]))
    ensures var x := Count(Map(KeyFunction(), nodes), Before(host, within)) - 1;
            && 0 <= x < |nodes| == |SortedKeysOf(nodes)|
            && KeyLe(KeyOf(nodes[j]), SortedKeysOf(nodes)[x])
  {
    var ks := SortedKeysOf(nodes);
    var y := KeyPlace(nodes, j);
    CutAt(nodes, host, within, y);
    var x := Count(Map(KeyFunction(), nodes), Before(host, within)) - 1;
    CountBound(Map(KeyFunction(), nodes), Before(host, within));
    NodeKeyOrderIsTotal();
    SortBySorts(Map(KeyFunction(), nodes), NodeKeyOrder());
    assert NodeKeyOrder()(ks[x], ks[x]);
    assert NodeKeyOrder()(ks[y], ks[x]);
  }

  /**
   Main result: writing the scheme-default port explicitly leaves the projected nodes unchanged exactly when no
   rewritten node overtakes a node of the same host that the projection tells apart from it. (The general promise
   that an omitted port and an explicit default port are the same fails otherwise.)
   */
  lemma {:induction false} ExplicitDefaultPortShows(nodes: seq<Node>, nodes': seq<Node>, scheme: Scheme,
                                                    profile: Profile)
    requires RewritesPorts(nodes, nodes', scheme)
    ensures ProjectedNodes(nodes, scheme, profile) == ProjectedNodes(nodes', scheme, profile)
            <==> NoOvertaking(nodes, nodes', scheme, profile)
  {
    ProjectedIffShown(nodes, scheme, nodes', scheme, profile);
    if NoOvertaking(nodes, nodes', scheme, profile) {
      NoOvertakingNoChange(nodes, nodes', scheme, profile);
    } else {
      var i, j :| 0 <= i < |nodes| && 0 <= j < |nodes| && Overtakes(nodes, nodes', scheme, profile, i, j);
      var kj := KeyOf(nodes[j]);
      if 0 < kj.port < DefaultPort(scheme) {
        OvertakingEarlyShows(nodes, nodes', scheme, profile, i, j, OmittedOnly());
      } else if kj.port == 0 {
        OvertakingEarlyShows(nodes, nodes', scheme, profile, i, j, OmittedUpTo(KeyOf(nodes[i])));
      } else {
        OvertakingLateShows(nodes, nodes', scheme, i, j);
      }
    }
  }

  /** For health checks the condition is that no rewritten node shares its host with a port below the default. */
  lemma {:induction false} ExplicitDefaultPortAndHealth(nodes: seq<Node>, nodes': seq<Node>, scheme: Scheme)
    requires RewritesPorts(nodes, nodes', scheme)
    ensures ProjectedNodes(nodes, scheme, HealthCheck) == ProjectedNodes(nodes', scheme, HealthCheck)
            <==> !exists i, j :: 0 <= i < |nodes| && 0 <= j < |nodes| && Rewritten(nodes, nodes', scheme, i)
                              && BareHost(nodes[j]) == BareHost(nodes[i])
                              && nodes[j].port.Some? && nodes[j].port.value < DefaultPort(scheme)
  {
    ExplicitDefaultPortShows(nodes, nodes', scheme, HealthCheck);
    forall i, j | 0 <= i < |nodes| && 0 <= j < |nodes|
      ensures Overtakes(nodes, nodes', scheme, HealthCheck, i, j)
              <==> Rewritten(nodes, nodes', scheme, i) && BareHost(nodes[j]) == BareHost(nodes[i])
                   && nodes[j].port.Some? && nodes[j].port.value < DefaultPort(scheme)
    {
    }
  }

  lemma {:induction false} DistinctHostsProjectAlike(nodes: seq<Node>, nodes': seq<Node>, scheme: Scheme,
                                                     profile: Profile)
    requires RewritesPorts(nodes, nodes', scheme)
    requires forall i, j :: 0 <= i < j < |nodes| ==> BareHost(nodes[i]) != BareHost(nodes[j])
    ensures ProjectedNodes(nodes, scheme, profile) == ProjectedNodes(nodes', scheme, profile)
  {
    ExplicitDefaultPortShows(nodes, nodes', scheme, profile);
  }

  /** An input that breaks the promise: two https nodes of one host, one without a port and one on port 80. */
  lemma {:induction false} DefaultPortCounterexample(host: Text)
    ensures var nodes := [Node(host, None, 1, 0), Node(host, Some(80), 1, 0)];
            var nodes' := [Node(host, Some(443), 1, 0), Node(host, Some(80), 1, 0)];
            ProjectedNodes(nodes, Https, HealthCheck) != ProjectedNodes(nodes', Https, HealthCheck)
  {
    var nodes := [Node(host, None, 1, 0), Node(host, Some(80), 1, 0)];
    var nodes' := [Node(host, Some(443), 1, 0), Node(host, Some(80), 1, 0)];
    assert Overtakes(nodes, nodes', Https, HealthCheck, 0, 1);
    ExplicitDefaultPortShows(nodes, nodes', Https, HealthCheck);
  }

  // ----- whole fingerprints -----

  function TlsProjection(tls: Option<ClientIdentity>, digest: Text -> Text): Json {
    match tls
    case Some(t) => Array([String(digest(t.cert)), String(digest(t.key))])
    case None => Null
  }

  function KeySet(keys: seq<Text>): set<Text> {
    set k | k in keys
  }

  /** The projected object: every field but the excluded ones, with the node list and the client identity replaced. */
  function Projection(u: Upstream, profile: Profile, digest: Text -> Text): map<Text, Json> {
    var kept := u.fields - KeySet(Excluded(profile));
    var withNodes := kept[Ascii("nodes") := Array(ProjectedNodes(u.nodes, u.scheme, profile))];
    if profile.CacheOrigin? then withNodes[Ascii("tls") := TlsProjection(u.tls, digest)] else withNodes
  }

  /** What the hasher is fed. */
  ghost function FingerprintStream(u: Upstream, profile: Profile, digest: Text -> Text): Bytes {
    Stream(Object(Projection(u, profile, digest)))
  }

  /** The fields that enter the fingerprint as they are. */
  function PlainFields(u: Upstream, profile: Profile): map<Text, Json> {
    u.fields - KeySet(Excluded(profile)) - {Ascii("nodes")} - (if profile.CacheOrigin? then {Ascii("tls")} else {})
  }

  /** Every length in the projection fits a machine word. */
  ghost predicate Machinable(u: Upstream, profile: Profile, digest: Text -> Text) {
    Fits(Object(Projection(u, profile, digest)))
  }

  lemma {:induction false} StreamsAgreeIffProjections(u: Upstream, v: Upstream, profile: Profile, digest: Text -> Text)
    ensures Projection(u, profile, digest) == Projection(v, profile, digest) ==>
              FingerprintStream(u, profile, digest) == FingerprintStream(v, profile, digest)
    ensures Machinable(u, profile, digest) && Machinable(v, profile, digest)
            && FingerprintStream(u, profile, digest) == FingerprintStream(v, profile, digest) ==>
              Projection(u, profile, digest) == Projection(v, profile, digest)
  {
    if Machinable(u, profile, digest) && Machinable(v, profile, digest)
       && FingerprintStream(u, profile, digest) == FingerprintStream(v, profile, digest) {
      Decodable(Object(Projection(u, profile, digest)), Object(Projection(v, profile, digest)), [], []);
    }
  }

  lemma {:induction false} ProjectionsAgree(u: Upstream, v: Upstream, profile: Profile, digest: Text -> Text)
    ensures Projection(u, profile, digest) == Projection(v, profile, digest) <==>
            && PlainFields(u, profile) == PlainFields(v, profile)
            && ProjectedNodes(u.nodes, u.scheme, profile) == ProjectedNodes(v.nodes, v.scheme, profile)
            && (profile.CacheOrigin? ==> TlsProjection(u.tls, digest) == TlsProjection(v.tls, digest))
  {
    var nodesKey: Text, tlsKey: Text := Ascii("nodes"), Ascii("tls");
    assert |nodesKey| != |tlsKey|;
    var ku: map<Text, Json>, kv: map<Text, Json> :=
      u.fields - KeySet(Excluded(profile)), v.fields - KeySet(Excluded(profile));
    var nu, nv := Array(ProjectedNodes(u.nodes, u.scheme, profile)), Array(ProjectedNodes(v.nodes, v.scheme, profile));
    if profile.CacheOrigin? {
      OneReplaced(ku[nodesKey := nu], kv[nodesKey := nv], tlsKey,
                  TlsProjection(u.tls, digest), TlsProjection(v.tls, digest));
      ReplaceCommutes(ku, nodesKey, nu, tlsKey);
      ReplaceCommutes(kv, nodesKey, nv, tlsKey);
      OneReplaced(ku - {tlsKey}, kv - {tlsKey}, nodesKey, nu, nv);
      ReplaceCommutes(ku, nodesKey, nu, tlsKey);
    } else {
      OneReplaced(ku, kv, nodesKey, nu, nv);
      assert PlainFields(u, profile) == ku - {nodesKey} && PlainFields(v, profile) == kv - {nodesKey};
    }
  }

  lemma {:induction false} OneReplaced<K, V>(m: map<K, V>, n: map<K, V>, k: K, a: V, b: V)
    ensures m[k := a] == n[k := b] <==> m - {k} == n - {k} && a == b
  {
    assert m[k := a] - {k} == m - {k} && n[k := b] - {k} == n - {k};
    assert m[k := a] == (m - {k})[k := a] && n[k := b] == (n - {k})[k := b];
    assert m[k := a][k] == a && n[k := b][k] == b;
  }

  lemma {:induction false} ReplaceCommutes<K, V>(m: map<K, V>, k: K, a: V, l: K)
    requires k != l
    ensures m[k := a] - {l} == (m - {l})[k := a] && m - {l} - {k} == m - {k} - {l}
  {
  }

  /** The nodes as health checks see them: bare host and effective port, in sort-key order. */
  function EffectiveAddresses(u: Upstream): seq<(Text, Port)> {
    Map((n: Node) => (BareHost(n), EffectivePort(n, u.scheme)), SortBy(u.nodes, NodeOrder()))
  }

  lemma {:induction false} HealthProjectionIsAddresses(u: Upstream, v: Upstream)
    ensures ProjectedNodes(u.nodes, u.scheme, HealthCheck) == ProjectedNodes(v.nodes, v.scheme, HealthCheck)
            <==> EffectiveAddresses(u) == EffectiveAddresses(v)
  {
    var a, b := SortBy(u.nodes, NodeOrder()), SortBy(v.nodes, NodeOrder());
    if |a| == |b| {
      forall i | 0 <= i < |a|
        ensures ProjectedNodes(u.nodes, u.scheme, HealthCheck)[i] == ProjectedNodes(v.nodes, v.scheme, HealthCheck)[i]
                <==> EffectiveAddresses(u)[i] == EffectiveAddresses(v)[i]
      {
        ProjectionShowsKey(a[i], b[i], u.scheme, v.scheme, HealthCheck);
      }
    }
  }

  /** The nodes as the cache sees them, with weight and priority. */
  function WeightedOrigins(u: Upstream): seq<(Text, Port, nat, int)> {
    Map((n: Node) => (BareHost(n), EffectivePort(n, u.scheme), n.weight, n.priority), SortBy(u.nodes, NodeOrder()))
  }

  lemma {:induction false} CacheProjectionIsOrigins(u: Upstream, v: Upstream)
    ensures ProjectedNodes(u.nodes, u.scheme, CacheOrigin) == ProjectedNodes(v.nodes, v.scheme, CacheOrigin)
            <==> WeightedOrigins(u) == WeightedOrigins(v)
  {
    var a, b := SortBy(u.nodes, NodeOrder()), SortBy(v.nodes, NodeOrder());
    if |a| == |b| {
      forall i | 0 <= i < |a|
        ensures ProjectedNodes(u.nodes, u.scheme, CacheOrigin)[i] == ProjectedNodes(v.nodes, v.scheme, CacheOrigin)[i]
                <==> WeightedOrigins(u)[i] == WeightedOrigins(v)[i]
      {
        ProjectionShowsKey(a[i], b[i], u.scheme, v.scheme, CacheOrigin);
      }
    }
  }

  function Field(fields: map<Text, Json>, name: Text): Option<Json> {
    if name in fields then Some(fields[name]) else None
  }

  predicate Named(names: seq<string>, name: Text) {
    exists i :: 0 <= i < |names| && Ascii(names[i]) == name
  }

  /** The two objects agree on every field whose name is not listed. */
  ghost predicate AgreeExceptOn(f: map<Text, Json>, g: map<Text, Json>, names: seq<string>) {
    forall name: Text :: !Named(names, name) ==> Field(f, name) == Field(g, name)
  }

  /** `keys` are the listed names. */
  ghost predicate Lists(keys: set<Text>, names: seq<string>) {
    forall name: Text :: name in keys <==> Named(names, name)
  }

  lemma {:induction false} RemovingAgrees(f: map<Text, Json>, g: map<Text, Json>, keys: set<Text>, names: seq<string>)
    requires Lists(keys, names)
    ensures f - keys == g - keys <==> AgreeExceptOn(f, g, names)
  {
    var f': map<Text, Json>, g': map<Text, Json> := f - keys, g - keys;
    if f' == g' {
      forall name: Text | !Named(names, name) ensures Field(f, name) == Field(g, name) {
        assert name !in keys;
        assert name in f' <==> name in f;
        assert name in g' <==> name in g;
      }
    }
    if AgreeExceptOn(f, g, names) {
      forall name: Text ensures Field(f', name) == Field(g', name) {
        assert name !in keys ==> Field(f, name) == Field(g, name);
      }
      assert forall name: Text :: name in f' <==> Field(f', name).Some?;
      assert forall name: Text :: name in g' <==> Field(g', name).Some?;
      assert f'.Keys == g'.Keys;
    }
  }

  /** The keys of a list of names, given one by one. */
  lemma {:induction false} ListsNames(keys: seq<Text>, names: seq<string>)
    requires |keys| == |names| && forall i :: 0 <= i < |keys| ==> keys[i] == Ascii(names[i])
    ensures Lists(KeySet(keys), names)
  {
    forall name: Text ensures name in KeySet(keys) <==> Named(names, name) {
      if name in keys {
        var i :| 0 <= i < |keys| && keys[i] == name;
        assert Ascii(names[i]) == name;
      }
      if Named(names, name) {
        var i :| 0 <= i < |names| && Ascii(names[i]) == name;
        assert keys[i] == name;
      }
    }
  }

  lemma {:induction false} HealthFieldsAgree(u: Upstream, v: Upstream)
    ensures PlainFields(u, HealthCheck) == PlainFields(v, HealthCheck) <==>
            AgreeExceptOn(u.fields, v.fields, ["id", "retries", "retry_timeout", "timeout", "type", "hash_on", "key",
                                               "pass_host", "upstream_host", "tls", "keepalive_pool", "nodes"])
  {
    var names := ["id", "retries", "retry_timeout", "timeout", "type", "hash_on", "key", "pass_host", "upstream_host",
                  "tls", "keepalive_pool", "nodes"];
    var keys: seq<Text> := UPSTREAM_HEALTH_CHECK_EXCLUDED + [Ascii("nodes")];
    ListsNames(keys, names);
    RemovingAgrees(u.fields, v.fields, KeySet(keys), names);
    RemovedTogether(u.fields, UPSTREAM_HEALTH_CHECK_EXCLUDED, Ascii("nodes"));
    RemovedTogether(v.fields, UPSTREAM_HEALTH_CHECK_EXCLUDED, Ascii("nodes"));
  }

  lemma {:induction false} RemovedTogether(fields: map<Text, Json>, keys: seq<Text>, key: Text)
    ensures fields - KeySet(keys) - {key} == fields - KeySet(keys + [key])
    ensures fields - KeySet(keys) - {key} - {} == fields - KeySet(keys + [key])
  {
    assert KeySet(keys + [key]) == KeySet(keys) + {key};
  }

  lemma {:induction false} CacheFieldsAgree(u: Upstream, v: Upstream)
    ensures PlainFields(u, CacheOrigin) == PlainFields(v, CacheOrigin) <==>
            AgreeExceptOn(u.fields, v.fields, ["checks", "keepalive_pool", "nodes", "tls"])
  {
    var names := ["checks", "keepalive_pool", "nodes", "tls"];
    var before: seq<Text> := UPSTREAM_CACHE_ORIGIN_EXCLUDED + [Ascii("nodes")];
    ListsNames(before + [Ascii("tls")], names);
    RemovingAgrees(u.fields, v.fields, KeySet(before + [Ascii("tls")]), names);
    RemovedTogether(u.fields, UPSTREAM_CACHE_ORIGIN_EXCLUDED, Ascii("nodes"));
    RemovedTogether(v.fields, UPSTREAM_CACHE_ORIGIN_EXCLUDED, Ascii("nodes"));
    RemovedTogether(u.fields, before, Ascii("tls"));
    RemovedTogether(v.fields, before, Ascii("tls"));
  }

  /**
   Main result: two upstreams feed the hasher the same health-check stream exactly when their effective node addresses
   agree and every field but these twelve. Weights and priorities are free to differ.
   */
  lemma {:induction false} HealthStreamsAgree(u: Upstream, v: Upstream, digest: Text -> Text)
    requires Machinable(u, HealthCheck, digest) && Machinable(v, HealthCheck, digest)
    ensures FingerprintStream(u, HealthCheck, digest) == FingerprintStream(v, HealthCheck, digest) <==>
            && AgreeExceptOn(u.fields, v.fields, ["id", "retries", "retry_timeout", "timeout", "type", "hash_on", "key",
                                                  "pass_host", "upstream_host", "tls", "keepalive_pool", "nodes"])
            && EffectiveAddresses(u) == EffectiveAddresses(v)
  {
    StreamsAgreeIffProjections(u, v, HealthCheck, digest);
    ProjectionsAgree(u, v, HealthCheck, digest);
    HealthProjectionIsAddresses(u, v);
    HealthFieldsAgree(u, v);
  }

  ghost predicate Injective(digest: Text -> Text) {
    forall a: Text, b: Text :: digest(a) == digest(b) ==> a == b
  }

  lemma {:induction false} IdentitiesAgree(s: Option<ClientIdentity>, t: Option<ClientIdentity>, digest: Text -> Text)
    requires Injective(digest)
    ensures TlsProjection(s, digest) == TlsProjection(t, digest) <==> s == t
  {
    if s.Some? && t.Some? && TlsProjection(s, digest) == TlsProjection(t, digest) {
      var a, b := TlsProjection(s, digest).items, TlsProjection(t, digest).items;
      assert a[0] == b[0] && a[1] == b[1];
    }
  }

  /**
   The same for the cache origin: every field but these four, the nodes with weight and priority, and the client
   identity, as far as the digest tells identities apart.
   */
  lemma {:induction false} CacheOriginStreamsAgree(u: Upstream, v: Upstream, digest: Text -> Text)
    requires Machinable(u, CacheOrigin, digest) && Machinable(v, CacheOrigin, digest) && Injective(digest)
    ensures FingerprintStream(u, CacheOrigin, digest) == FingerprintStream(v, CacheOrigin, digest) <==>
            && AgreeExceptOn(u.fields, v.fields, ["checks", "keepalive_pool", "nodes", "tls"])
            && WeightedOrigins(u) == WeightedOrigins(v)
            && u.tls == v.tls
  {
    StreamsAgreeIffProjections(u, v, CacheOrigin, digest);
    ProjectionsAgree(u, v, CacheOrigin, digest);
    CacheProjectionIsOrigins(u, v);
    CacheFieldsAgree(u, v);
    IdentitiesAgree(u.tls, v.tls, digest);
  }

  /** Reordering the configured nodes changes no fingerprint. */
  lemma {:induction false} FingerprintIgnoresNodeOrder(u: Upstream, v: Upstream, profile: Profile, digest: Text -> Text)
    requires DifferInNodes(u, v) && multiset(u.nodes) == multiset(v.nodes)
    ensures FingerprintStream(u, profile, digest) == FingerprintStream(v, profile, digest)
  {
    NodeOrderDoesNotShow(u.nodes, v.nodes, u.scheme, profile);
    NodesDecide(u, v, profile, digest);
  }

  /** Two upstreams that differ in their nodes alone. */
  ghost predicate DifferInNodes(u: Upstream, v: Upstream) {
    u.scheme == v.scheme && u.tls == v.tls && u.fields - {Ascii("nodes")} == v.fields - {Ascii("nodes")}
  }

  lemma {:induction false} NodesDecide(u: Upstream, v: Upstream, profile: Profile, digest: Text -> Text)
    requires DifferInNodes(u, v)
    ensures ProjectedNodes(u.nodes, u.scheme, profile) == ProjectedNodes(v.nodes, v.scheme, profile) ==>
              FingerprintStream(u, profile, digest) == FingerprintStream(v, profile, digest)
    ensures Machinable(u, profile, digest) && Machinable(v, profile, digest)
            && FingerprintStream(u, profile, digest) == FingerprintStream(v, profile, digest) ==>
              ProjectedNodes(u.nodes, u.scheme, profile) == ProjectedNodes(v.nodes, v.scheme, profile)
  {
    PlainFieldsSame(u, v, profile);
    ProjectionsAgree(u, v, profile, digest);
    StreamsAgreeIffProjections(u, v, profile, digest);
  }

  lemma {:induction false} PlainFieldsSame(u: Upstream, v: Upstream, profile: Profile)
    requires DifferInNodes(u, v)
    ensures PlainFields(u, profile) == PlainFields(v, profile)
  {
    var nodesKey: Text := Ascii("nodes");
    var excluded: set<Text> := KeySet(Excluded(profile));
    RemoveBoth(u.fields, v.fields, excluded, nodesKey);
  }

  /**
   Main result on the documented promise: writing the scheme-default port explicitly leaves the fingerprint stream
   unchanged exactly when no rewritten node overtakes a node of its host that the projection tells apart from it.
   */
  lemma {:induction false} FingerprintShowsDefaultPort(u: Upstream, v: Upstream, profile: Profile, digest: Text -> Text)
    requires DifferInNodes(u, v) && RewritesPorts(u.nodes, v.nodes, u.scheme)
    ensures NoOvertaking(u.nodes, v.nodes, u.scheme, profile) ==>
              FingerprintStream(u, profile, digest) == FingerprintStream(v, profile, digest)
    ensures Machinable(u, profile, digest) && Machinable(v, profile, digest)
            && FingerprintStream(u, profile, digest) == FingerprintStream(v, profile, digest) ==>
              NoOvertaking(u.nodes, v.nodes, u.scheme, profile)
  {
    ExplicitDefaultPortShows(u.nodes, v.nodes, u.scheme, profile);
    NodesDecide(u, v, profile, digest);
  }

  /** With pairwise distinct hosts the promise holds for the fingerprint, in both profiles. */
  lemma {:induction false} DistinctHostsHideDefaultPorts(u: Upstream, v: Upstream, profile: Profile,
                                                         digest: Text -> Text)
    requires DifferInNodes(u, v) && RewritesPorts(u.nodes, v.nodes, u.scheme)
    requires forall i, j :: 0 <= i < j < |u.nodes| ==> BareHost(u.nodes[i]) != BareHost(u.nodes[j])
    ensures FingerprintStream(u, profile, digest) == FingerprintStream(v, profile, digest)
  {
    DistinctHostsProjectAlike(u.nodes, v.nodes, u.scheme, profile);
    NodesDecide(u, v, profile, digest);
  }

  lemma {:induction false} RemoveBoth<K, V>(m: map<K, V>, n: map<K, V>, ks: set<K>, k: K)
    requires m - {k} == n - {k}
    ensures m - ks - {k} == n - ks - {k}
  {
    assert m - ks - {k} == (m - {k}) - ks && n - ks - {k} == (n - {k}) - ks;
  }

  /** Edits the serialized upstream step by step and feeds the result to a new hasher. */
  method Fingerprint(u: Upstream, profile: Profile, digest: Text -> Text) returns (hasher: Hasher)
    ensures fresh(hasher) && hasher.written == FingerprintStream(u, profile, digest)
  {
    var projection := RemoveAll(u.fields, Excluded(profile));
    projection := projection[Ascii("nodes") := Array(ProjectedNodes(u.nodes, u.scheme, profile))];
    if profile.CacheOrigin? {
      projection := projection[Ascii("tls") := TlsProjection(u.tls, digest)];
    }
    hasher := new Hasher();
    HashCanonicalJson(Object(projection), hasher);
    assert [] + hasher.written == hasher.written;
  }

  method RemoveAll(fields: map<Text, Json>, keys: seq<Text>) returns (projection: map<Text, Json>)
    ensures projection == fields - KeySet(keys)
  {
    projection := fields;
    for i := 0 to |keys|
      invariant projection == fields - KeySet(keys[..i])
    {
      assert KeySet(keys[..i + 1]) == KeySet(keys[..i]) + {keys[i]};
      projection := projection - {keys[i]};
    }
    assert keys[..|keys|] == keys;
  }

  // ----- the cache namespace of a route -----

  /** The serialized route and, when one is bound, its serialized service. */
  function NamespaceProjection(route: map<Text, Json>, service: Option<map<Text, Json>>): map<Text, Json> {
    (route - KeySet(ROUTE_CACHE_NAMESPACE_EXCLUDED))[Ascii("bound_service") := ServiceProjection(service)]
  }

  function ServiceProjection(service: Option<map<Text, Json>>): Json {
    match service
    case Some(s) => Object(s - KeySet(SERVICE_CACHE_NAMESPACE_EXCLUDED))
    case None => Null
  }

  /** Edits the serialized route and service step by step and feeds the result to a new hasher. */
  method CacheNamespaceFingerprint(route: map<Text, Json>, service: Option<map<Text, Json>>) returns (hasher: Hasher)
    ensures fresh(hasher) && hasher.written == Stream(Object(NamespaceProjection(route, service)))
  {
    var projection := RemoveAll(route, ROUTE_CACHE_NAMESPACE_EXCLUDED);
    var bound := Null;
    if service.Some? {
      var serviceProjection := RemoveAll(service.value, SERVICE_CACHE_NAMESPACE_EXCLUDED);
      bound := Object(serviceProjection);
    }
    projection := projection[Ascii("bound_service") := bound];
    hasher := new Hasher();
    HashCanonicalJson(Object(projection), hasher);
    assert [] + hasher.written == hasher.written;
  }

  lemma {:induction false} RouteFieldsAgree(r: map<Text, Json>, r': map<Text, Json>)
    ensures r - KeySet(ROUTE_CACHE_NAMESPACE_EXCLUDED) - {Ascii("bound_service")}
            == r' - KeySet(ROUTE_CACHE_NAMESPACE_EXCLUDED) - {Ascii("bound_service")}
            <==> AgreeExceptOn(r, r', ["name", "methods", "upstream", "upstream_id", "enable_websocket", "bound_service"])
  {
    var names := ["name", "methods", "upstream", "upstream_id", "enable_websocket", "bound_service"];
    var keys: seq<Text> := ROUTE_CACHE_NAMESPACE_EXCLUDED + [Ascii("bound_service")];
    ListsNames(keys, names);
    RemovingAgrees(r, r', KeySet(keys), names);
    RemovedTogether(r, ROUTE_CACHE_NAMESPACE_EXCLUDED, Ascii("bound_service"));
    RemovedTogether(r', ROUTE_CACHE_NAMESPACE_EXCLUDED, Ascii("bound_service"));
  }

  lemma {:induction false} ServiceFieldsAgree(s: map<Text, Json>, s': map<Text, Json>)
    ensures s - KeySet(SERVICE_CACHE_NAMESPACE_EXCLUDED) == s' - KeySet(SERVICE_CACHE_NAMESPACE_EXCLUDED)
            <==> AgreeExceptOn(s, s', ["name", "hosts", "upstream", "upstream_id"])
  {
    var names := ["name", "hosts", "upstream", "upstream_id"];
    ListsNames(SERVICE_CACHE_NAMESPACE_EXCLUDED, names);
    RemovingAgrees(s, s', KeySet(SERVICE_CACHE_NAMESPACE_EXCLUDED), names);
  }

  /**
   Two routes share a cache namespace stream exactly when every field of the route but these agrees, and either both
   are bound to a service whose fields but those four agree, or neither is bound to one.
   */
  lemma {:induction false} NamespacesAgree(r: map<Text, Json>, s: Option<map<Text, Json>>,
                                           r': map<Text, Json>, s': Option<map<Text, Json>>)
    requires Fits(Object(NamespaceProjection(r, s))) && Fits(Object(NamespaceProjection(r', s')))
    ensures Stream(Object(NamespaceProjection(r, s))) == Stream(Object(NamespaceProjection(r', s'))) <==>
            && AgreeExceptOn(r, r', ["name", "methods", "upstream", "upstream_id", "enable_websocket", "bound_service"])
            && s.Some? == s'.Some?
            && (s.Some? ==> AgreeExceptOn(s.value, s'.value, ["name", "hosts", "upstream", "upstream_id"]))
  {
    if Stream(Object(NamespaceProjection(r, s))) == Stream(Object(NamespaceProjection(r', s'))) {
      Decodable(Object(NamespaceProjection(r, s)), Object(NamespaceProjection(r', s')), [], []);
    }
    NamespaceProjectionsAgree(r, s, r', s');
    RouteFieldsAgree(r, r');
    if s.Some? && s'.Some? {
      ServiceFieldsAgree(s.value, s'.value);
    }
  }

  lemma {:induction false} NamespaceProjectionsAgree(r: map<Text, Json>, s: Option<map<Text, Json>>,
                                                     r': map<Text, Json>, s': Option<map<Text, Json>>)
    ensures NamespaceProjection(r, s) == NamespaceProjection(r', s')
            <==> && r - KeySet(ROUTE_CACHE_NAMESPACE_EXCLUDED) - {Ascii("bound_service")}
                    == r' - KeySet(ROUTE_CACHE_NAMESPACE_EXCLUDED) - {Ascii("bound_service")}
                 && s.Some? == s'.Some?
                 && (s.Some? ==> s.value - KeySet(SERVICE_CACHE_NAMESPACE_EXCLUDED)
                                 == s'.value - KeySet(SERVICE_CACHE_NAMESPACE_EXCLUDED))
  {
    var boundKey: Text := Ascii("bound_service");
    var k: map<Text, Json>, k': map<Text, Json> :=
      r - KeySet(ROUTE_CACHE_NAMESPACE_EXCLUDED), r' - KeySet(ROUTE_CACHE_NAMESPACE_EXCLUDED);
    OneReplaced(k, k', boundKey, ServiceProjection(s), ServiceProjection(s'));
  }
}
