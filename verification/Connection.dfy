/**
 Connection parameters of a node and their semantic equality: servers up to surrounding space and
 case, pre-shared keys under either alias, transports as maps.
 */
module Connection {
  import opened Wrappers

  /** `strings.TrimSpace`, and a case folding with `EqualFold(a, b)` iff the foldings agree. */
  datatype Text = Text(trim: string -> string, fold: string -> string)

  datatype Credentials = Credentials(
    password: string,
    uuid: string,
    method_: string,
    alterId: int,
    privateKey: string,
    publicKey: string,
    presharedKey: string,
    preSharedKey: string,
    localAddress: seq<string>,
    reserved: seq<int>,
    mtu: int,
    dns: seq<string>,
    congestionControl: string,
    udpRelayMode: string,
    alpn: seq<string>,
    sni: string,
    disableSni: bool,
    username: string,
    transport: map<string, string>)

  datatype Connection = Connection(protocol: string, server: string, port: int, credentials: Credentials)

  function EffectivePreSharedKey(t: Text, c: Credentials): string {
    if t.trim(c.preSharedKey) != "" then t.trim(c.preSharedKey) else t.trim(c.presharedKey)
  }

  /** A connection with everything irrelevant to the comparison normalised away. */
  function Canonical(t: Text, c: Connection): Connection {
    c.(server := t.fold(t.trim(c.server)),
       credentials := c.credentials.(presharedKey := EffectivePreSharedKey(t, c.credentials), preSharedKey := ""))
  }

  method AreInboundCredentialsEqual(t: Text, a: Credentials, b: Credentials) returns (eq: bool)
    ensures eq <==> a.(presharedKey := EffectivePreSharedKey(t, a), preSharedKey := "") ==
                    b.(presharedKey := EffectivePreSharedKey(t, b), preSharedKey := "")
  {
    if a.password != b.password || a.uuid != b.uuid || a.method_ != b.method_ || a.alterId != b.alterId ||
       a.privateKey != b.privateKey || a.publicKey != b.publicKey ||
       EffectivePreSharedKey(t, a) != EffectivePreSharedKey(t, b) || a.mtu != b.mtu ||
       a.congestionControl != b.congestionControl || a.udpRelayMode != b.udpRelayMode || a.sni != b.sni ||
       a.disableSni != b.disableSni || a.username != b.username {
      return false;
    }
    if a.localAddress != b.localAddress || a.reserved != b.reserved || a.dns != b.dns || a.alpn != b.alpn {
      return false;
    }
    eq := SameTransport(a.transport, b.transport);
  }

  /** Equal sizes and every entry of `a` found in `b` make the maps equal. */
  method SameTransport(a: map<string, string>, b: map<string, string>) returns (eq: bool)
    ensures eq <==> a == b
  {
    if |a| != |b| { return false; }
    var todo := a.Keys;
    while todo != {}
      invariant todo <= a.Keys && forall k :: k in a && k !in todo ==> k in b && a[k] == b[k]
      decreases todo
    {
      var k :| k in todo;
      if k !in b || a[k] != b[k] { return false; }
      todo := todo - {k};
    }
    SameSizeSubset(a.Keys, b.Keys);
    eq := true;
  }

  lemma SameSizeSubset(a: set<string>, b: set<string>)
    requires a <= b && |a| == |b|
    ensures a == b
  {
    assert |b - a| == |b| - |a|;
  }

  method AreConnectionParametersEqual(t: Text, a: Connection, b: Connection) returns (eq: bool)
    ensures eq <==> Canonical(t, a) == Canonical(t, b)
  {
    if a.protocol != b.protocol { return false; }
    if t.fold(t.trim(a.server)) != t.fold(t.trim(b.server)) { return false; }
    if a.port != b.port { return false; }
    eq := AreInboundCredentialsEqual(t, a.credentials, b.credentials);
  }

  predicate Same(t: Text, a: Connection, b: Connection) {
    Canonical(t, a) == Canonical(t, b)
  }

  /** Field overrides set by the user for one node. */
  datatype Override = Override(
    server: Option<string>, port: Option<int>, sni: Option<string>, password: Option<string>, uuid: Option<string>)

  function GetOr<T>(o: Option<T>, d: T): T {
    if o.Some? then o.value else d
  }

  function ApplyOverride(o: Override, c: Connection): Connection {
    c.(server := GetOr(o.server, c.server),
       port := GetOr(o.port, c.port),
       credentials := c.credentials.(sni := GetOr(o.sni, c.credentials.sni),
                                     password := GetOr(o.password, c.credentials.password),
                                     uuid := GetOr(o.uuid, c.credentials.uuid)))
  }

  /** The connection carries what the user set. */
  ghost predicate Honours(o: Override, c: Connection) {
    && (o.server.Some? ==> c.server == o.server.value) && (o.port.Some? ==> c.port == o.port.value)
    && (o.sni.Some? ==> c.credentials.sni == o.sni.value)
    && (o.password.Some? ==> c.credentials.password == o.password.value)
    && (o.uuid.Some? ==> c.credentials.uuid == o.uuid.value)
  }

  /** ... and is `c` in everything the user did not set. */
  ghost predicate OtherwiseSame(o: Override, c: Connection, r: Connection) {
    && (o.server.None? ==> r.server == c.server) && (o.port.None? ==> r.port == c.port) && r.protocol == c.protocol
    && r.credentials == c.credentials.(sni := r.credentials.sni, password := r.credentials.password, uuid := r.credentials.uuid)
    && (o.sni.None? ==> r.credentials.sni == c.credentials.sni)
    && (o.password.None? ==> r.credentials.password == c.credentials.password)
    && (o.uuid.None? ==> r.credentials.uuid == c.credentials.uuid)
  }

  /**
   An override is the one connection that honours it and is otherwise the given one; applying it
   again changes nothing.
   */
  lemma OverrideExactly(o: Override, c: Connection, r: Connection)
    ensures r == ApplyOverride(o, c) <==> Honours(o, r) && OtherwiseSame(o, c, r)
    ensures ApplyOverride(o, ApplyOverride(o, c)) == ApplyOverride(o, c)
  {
  }

  /**
   Servers are compared up to surrounding space and case, pre-shared keys under either alias; all
   else exactly.
   */
  lemma SameExactly(t: Text, a: Connection, b: Connection)
    ensures Same(t, a, b) <==>
              && a.protocol == b.protocol && a.port == b.port && t.fold(t.trim(a.server)) == t.fold(t.trim(b.server))
              && PskOf(t, a) == PskOf(t, b)
              && a.credentials.(presharedKey := "", preSharedKey := "") == b.credentials.(presharedKey := "", preSharedKey := "")
  {
    var x, y := a.credentials.(presharedKey := "", preSharedKey := ""), b.credentials.(presharedKey := "", preSharedKey := "");
    if x == y {
      assert a.credentials.(presharedKey := PskOf(t, a), preSharedKey := "") == x.(presharedKey := PskOf(t, a));
      assert b.credentials.(presharedKey := PskOf(t, b), preSharedKey := "") == y.(presharedKey := PskOf(t, b));
    }
    if Same(t, a, b) {
      assert Canonical(t, a).credentials.(presharedKey := "") == x && Canonical(t, b).credentials.(presharedKey := "") == y;
    }
  }

  /** The trimmed key of the newer alias, or of the older one if that is blank. */
  ghost function PskOf(t: Text, c: Connection): string {
    var key := t.trim(c.credentials.preSharedKey);
    if key == "" then t.trim(c.credentials.presharedKey) else key
  }
}
