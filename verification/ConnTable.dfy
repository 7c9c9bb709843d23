/** Connection keys, the table that connections are looked up in, and the rewriting of packets. */
module ConnTable {
  import opened NatRange
  import opened Wrappers

  datatype Endpoint = Endpoint(addr: Addr, port: nat)

  /** What identifies a packet's connection and direction; also stands for the packet itself. */
  datatype Key = Key(src: Endpoint, dst: Endpoint, dlType: nat, zone: nat, proto: nat) {
    function Reverse(): Key {
      this.(src := dst, dst := src)
    }

    /** TCP and UDP have ports to translate. */
    predicate HasPorts() {
      proto == 6 || proto == 17
    }
  }

  datatype Hashing = Hashing(endpoint: Endpoint -> bv32, rest: (bv32, nat, nat, nat) -> nat) {
    function Of(k: Key): nat {
      rest(endpoint(k.src) ^ endpoint(k.dst), k.dlType, k.zone, k.proto)
    }
  }

  /** A key and its reverse have the same hash. */
  lemma HashSymmetric(h: Hashing, k: Key)
    ensures h.Of(k.Reverse()) == h.Of(k)
  {
    assert h.endpoint(k.src) ^ h.endpoint(k.dst) == h.endpoint(k.dst) ^ h.endpoint(k.src);
  }

  datatype NatAction = NatAction(src: bool, srcPort: bool, dst: bool, dstPort: bool) {
    function Reverse(): NatAction {
      if src then this.(src := false, dst := true)
      else if dst then this.(dst := false, src := true)
      else this
    }
  }

  /** A connection.  The second entry of a translated connection, by which replies find it, is the
      same with `unNat` set and the keys exchanged. */
  datatype Conn = Conn(id: nat, key: Key, revKey: Key, action: NatAction, translated: bool, unNat: bool,
                       expiration: int, admitZone: int, zoneSeq: nat) {
    function Partner(): Conn {
      this.(key := revKey, revKey := key, action := NatAction(false, false, false, false), unNat := true)
    }

    predicate Expired(now: int) {
      !unNat && now >= expiration
    }
  }

  /** The connections under each hash, the last one inserted first. */
  type Table = map<nat, seq<Conn>>

  function Chain(t: Table, hash: nat): seq<Conn> {
    if hash in t then t[hash] else []
  }

  function Push(t: Table, hash: nat, c: Conn): Table {
    t[hash := [c] + Chain(t, hash)]
  }

  /** The first connection on the chain that has the key, and whether in the reply direction. */
  function Search(chain: seq<Conn>, key: Key, now: int): Option<(Conn, bool)> {
    if chain == [] then None
    else
      var c := chain[0];
      if !c.Expired(now) && c.key == key then Some((c, false))
      else if !c.Expired(now) && c.revKey == key then Some((c, true))
      else Search(chain[1..], key, now)
  }

  lemma {:induction false} SearchFrom(chain: seq<Conn>, key: Key, now: int, i: nat)
    requires i <= |chain|
    requires forall j :: 0 <= j < i ==> chain[j].Expired(now) || (chain[j].key != key && chain[j].revKey != key)
    ensures Search(chain, key, now) == Search(chain[i..], key, now)
    decreases i
  {
    if i == 0 {
      assert chain[0..] == chain;
    } else {
      SearchFrom(chain[1..], key, now, i - 1);
      assert chain[1..][i - 1..] == chain[i..];
    }
  }

  method KeyLookup(t: Table, key: Key, hash: nat, now: int) returns (r: Option<(Conn, bool)>)
    ensures r == Search(Chain(t, hash), key, now)
    ensures r.Some? ==>
      var (c, reply) := r.value;
      c in Chain(t, hash) && (c.unNat || now < c.expiration) && key == if reply then c.revKey else c.key
    ensures r.None? ==>
      forall c :: c in Chain(t, hash) && (c.unNat || now < c.expiration) ==> c.key != key && c.revKey != key
  {
    var chain := Chain(t, hash);
    for i := 0 to |chain|
      invariant forall j :: 0 <= j < i ==> chain[j].Expired(now) || (chain[j].key != key && chain[j].revKey != key)
    {
      var c := chain[i];
      SearchFrom(chain, key, now, i);
      if c.Expired(now) { continue; }
      if c.key == key { return Some((c, false)); }
      if c.revKey == key { return Some((c, true)); }
    }
    SearchFrom(chain, key, now, |chain|);
    return None;
  }

  // ----- which connection a packet belongs to

  /** The connection that a packet belongs to: a second entry leads to the connection itself, which is
      searched for under the hash of the original direction. */
  function Resolve(t: Table, h: Hashing, pkt: Key, now: int): Option<(Conn, bool)> {
    var found := Search(Chain(t, h.Of(pkt)), pkt, now);
    if found.None? || !found.value.0.unNat then found
    else Search(Chain(t, h.Of(found.value.0.revKey)), pkt, now)
  }

  method ResolvePacket(t: Table, h: Hashing, pkt: Key, now: int) returns (r: Option<(Conn, bool)>)
    ensures r == Resolve(t, h, pkt, now)
  {
    r := KeyLookup(t, pkt, h.Of(pkt), now);
    if r.Some? && r.value.0.unNat {
      r := KeyLookup(t, pkt, h.Of(r.value.0.revKey), now);
    }
  }

  // ----- rewriting packets

  /** The packet with the addresses and ports of `key` reversed, as far as `action` goes. */
  function Rewrite(pkt: Key, key: Key, action: NatAction): Key {
    var p1 :=
      if action.src then pkt.(src := pkt.src.(addr := key.dst.addr))
      else if action.dst then pkt.(dst := pkt.dst.(addr := key.src.addr))
      else pkt;
    if (action.src || action.dst) && key.HasPorts() then
      p1.(src := p1.src.(port := key.dst.port), dst := p1.dst.(port := key.src.port))
    else p1
  }

  function NatPacket(pkt: Key, c: Conn, reply: bool): Key {
    if reply then Rewrite(pkt, c.key, c.action.Reverse()) else Rewrite(pkt, c.revKey, c.action)
  }

  /** The key of the replies of a connection that is translated in one direction: the address of the
      other side stays, and without ports nothing but an address changes. */
  predicate TranslatesTo(key: Key, action: NatAction, rev: Key) {
    && action.src != action.dst
    && rev == key.Reverse().(src := rev.src, dst := rev.dst)
    && (action.src ==> rev.src.addr == key.dst.addr)
    && (action.dst ==> rev.dst.addr == key.src.addr)
    && (!key.HasPorts() ==> rev.src.port == key.dst.port && rev.dst.port == key.src.port)
  }

  /** A translated packet is the reverse of what its replies look like. */
  lemma ForwardRewrite(c: Conn)
    requires TranslatesTo(c.key, c.action, c.revKey)
    ensures NatPacket(c.key, c, false) == c.revKey.Reverse()
  {
  }

  lemma ReplyRewrite(c: Conn)
    requires TranslatesTo(c.key, c.action, c.revKey)
    ensures NatPacket(c.revKey, c, true) == c.key.Reverse()
  {
  }

  /** The two entries of a translated connection go into the table, the second entry first. */
  function Commit(t: Table, h: Hashing, c: Conn): Table {
    var t1 := if c.translated then Push(t, h.Of(c.revKey), c.Partner()) else t;
    Push(t1, h.Of(c.key), c)
  }

  /** Right after a translated connection is committed to any table, the reverse of its translated
      packet belongs to it, and is rewritten to the reverse of its original packet. */
  lemma RoundTrip(t: Table, h: Hashing, c: Conn, now: int)
    requires TranslatesTo(c.key, c.action, c.revKey) && c.translated && !c.unNat && now < c.expiration
    ensures
      var reply := NatPacket(c.key, c, false).Reverse();
      var r := Resolve(Commit(t, h, c), h, reply, now);
      && r.Some? && r.value.0 == c
      && NatPacket(reply, c, r.value.1) == c.key.Reverse()
      && (c.key != c.revKey ==> r.value.1)
  {
    ForwardRewrite(c);
    ReplyRewrite(c);
    var t' := Commit(t, h, c);
    assert c.revKey.Reverse().Reverse() == c.revKey;
    assert Chain(t', h.Of(c.key))[0] == c;
    if h.Of(c.key) != h.Of(c.revKey) {
      assert Chain(t', h.Of(c.revKey))[0] == c.Partner();
    }
  }

  /** A search for any other key finds what it found before. */
  lemma CommitKeepsOthers(t: Table, h: Hashing, c: Conn, key: Key, hash: nat, now: int)
    requires key != c.key && key != c.revKey
    ensures Search(Chain(Commit(t, h, c), hash), key, now) == Search(Chain(t, hash), key, now)
  {
    var t1 := if c.translated then Push(t, h.Of(c.revKey), c.Partner()) else t;
    PushOther(t, h.Of(c.revKey), c.Partner(), key, hash, now);
    PushOther(t1, h.Of(c.key), c, key, hash, now);
  }

  lemma PushOther(t: Table, at: nat, c: Conn, key: Key, hash: nat, now: int)
    requires key != c.key && key != c.revKey
    ensures Search(Chain(Push(t, at, c), hash), key, now) == Search(Chain(t, hash), key, now)
  {
    if hash == at {
      var chain := [c] + Chain(t, hash);
      SearchFrom(chain, key, now, 1);
      assert chain[1..] == Chain(t, hash);
    }
  }

  // ----- what a commit does to the connections in the table

  lemma {:induction false} Searched(chain: seq<Conn>, key: Key, now: int)
    ensures Search(chain, key, now).Some? ==> Search(chain, key, now).value.0 in chain
    decreases |chain|
  {
    if chain != [] {
      Searched(chain[1..], key, now);
    }
  }

  /** What the connection tracker sees to before it commits a connection: the key is not in use, and neither is
      the key of the replies if it is translated; otherwise that is the reverse key, in use or not. */
  ghost predicate MayCommit(t: Table, h: Hashing, c: Conn, now: int) {
    && !c.unNat && now < c.expiration
    && (forall hash, e :: e in Chain(t, hash) ==> e.id != c.id)
    && Search(Chain(t, h.Of(c.key)), c.key, now).None?
    && if c.translated then Search(Chain(t, h.Of(c.revKey)), c.revKey, now).None? else c.revKey == c.key.Reverse()
  }

  lemma Resolved(t: Table, h: Hashing, pkt: Key, now: int)
    requires Resolve(t, h, pkt, now).Some?
    ensures Search(Chain(t, h.Of(pkt)), pkt, now).Some?
    ensures exists hash :: Resolve(t, h, pkt, now).value.0 in Chain(t, hash)
  {
    hide Search, Chain;
    var found := Search(Chain(t, h.Of(pkt)), pkt, now);
    Searched(Chain(t, h.Of(pkt)), pkt, now);
    Searched(Chain(t, h.Of(found.value.0.revKey)), pkt, now);
  }

  /** The new connection is the first one found under the key of its replies. */
  lemma TakesReverse(t: Table, h: Hashing, c: Conn, now: int)
    requires !c.translated && c.revKey == c.key.Reverse() && c.revKey != c.key && !c.unNat && now < c.expiration
    ensures Resolve(Commit(t, h, c), h, c.revKey, now) == Some((c, true))
  {
    HashSymmetric(h, c.key);
    assert Chain(Commit(t, h, c), h.Of(c.key))[0] == c;
  }

  /** After a commit, a packet that belonged to a connection belongs to the same one exactly when it does not
      have the key of the new one's replies; a packet that does is taken for such a reply.  That key can be in
      use only if the new connection is not translated. */
  lemma CommitKeepsConnections(t: Table, h: Hashing, c: Conn, pkt: Key, now: int)
    requires MayCommit(t, h, c, now) && Resolve(t, h, pkt, now).Some?
    ensures Resolve(Commit(t, h, c), h, pkt, now) == Resolve(t, h, pkt, now) <==> pkt != c.revKey
    ensures pkt == c.revKey ==> !c.translated && Resolve(Commit(t, h, c), h, pkt, now) == Some((c, true))
  {
    hide Search, Commit, Chain;
    Resolved(t, h, pkt, now);
    if pkt == c.revKey {
      TakesReverse(t, h, c, now);
    } else {
      CommitKeepsOthers(t, h, c, pkt, h.Of(pkt), now);
      var found := Search(Chain(t, h.Of(pkt)), pkt, now);
      CommitKeepsOthers(t, h, c, pkt, h.Of(found.value.0.revKey), now);
    }
  }

  /** A commit keeps every packet with its connection exactly when no connection has the key of the new one's
      replies. */
  lemma CommitKeepsAll(t: Table, h: Hashing, c: Conn, now: int)
    requires MayCommit(t, h, c, now)
    ensures Resolve(t, h, c.revKey, now).None? <==>
      forall pkt :: Resolve(t, h, pkt, now).Some? ==> Resolve(Commit(t, h, c), h, pkt, now) == Resolve(t, h, pkt, now)
  {
    hide Resolve, Commit, MayCommit;
    forall pkt | Resolve(t, h, pkt, now).Some?
      ensures Resolve(Commit(t, h, c), h, pkt, now) == Resolve(t, h, pkt, now) <==> pkt != c.revKey
    {
      CommitKeepsConnections(t, h, c, pkt, now);
    }
  }

  /** The later connections are committed one after the other. */
  ghost predicate MayCommitAll(t: Table, h: Hashing, later: seq<Conn>, now: int)
    decreases |later|
  {
    later != [] ==> MayCommit(t, h, later[0], now) && MayCommitAll(Commit(t, h, later[0]), h, later[1..], now)
  }

  function CommitAll(t: Table, h: Hashing, later: seq<Conn>): Table
    decreases |later|
  {
    if later == [] then t else CommitAll(Commit(t, h, later[0]), h, later[1..])
  }

  /** The last of the connections whose replies have the key. */
  function LastWithReverse(later: seq<Conn>, key: Key): (r: Option<Conn>)
    ensures r.None? <==> forall c :: c in later ==> c.revKey != key
    ensures r.Some? ==> r.value in later && r.value.revKey == key
  {
    if later == [] then None
    else
      var rest := LastWithReverse(later[1..], key);
      if rest.None? && later[0].revKey == key then Some(later[0]) else rest
  }

  lemma {:induction false} CommitsKeepConnections(t: Table, h: Hashing, later: seq<Conn>, pkt: Key, now: int)
    requires MayCommitAll(t, h, later, now) && Resolve(t, h, pkt, now).Some?
    ensures
      var last := LastWithReverse(later, pkt);
      Resolve(CommitAll(t, h, later), h, pkt, now) ==
        if last.Some? then Some((last.value, true)) else Resolve(t, h, pkt, now)
    decreases |later|
  {
    hide Resolve, Commit, MayCommit;
    if later != [] {
      CommitKeepsConnections(t, h, later[0], pkt, now);
      CommitsKeepConnections(Commit(t, h, later[0]), h, later[1..], pkt, now);
    }
  }

  lemma {:induction false} LaterAreOthers(t: Table, h: Hashing, later: seq<Conn>, now: int, e: Conn, hash: nat)
    requires MayCommitAll(t, h, later, now) && e in Chain(t, hash)
    ensures forall c :: c in later ==> c.id != e.id
    decreases |later|
  {
    if later != [] {
      StaysIn(t, h, later[0], e, hash);
      LaterAreOthers(Commit(t, h, later[0]), h, later[1..], now, e, hash);
    }
  }

  lemma StaysIn(t: Table, h: Hashing, c: Conn, e: Conn, hash: nat)
    requires e in Chain(t, hash)
    ensures e in Chain(Commit(t, h, c), hash)
  {
  }

  lemma CommitEnters(t: Table, h: Hashing, c: Conn)
    ensures c in Chain(Commit(t, h, c), h.Of(c.key))
  {
    assert Chain(Commit(t, h, c), h.Of(c.key))[0] == c;
  }

  /** Replies go on finding their way back exactly as long as no connection is committed whose own replies would
      look the same. */
  lemma RoundTripLasts(t: Table, h: Hashing, c: Conn, later: seq<Conn>, now: int)
    requires TranslatesTo(c.key, c.action, c.revKey) && c.translated && !c.unNat && now < c.expiration
    requires MayCommitAll(Commit(t, h, c), h, later, now)
    ensures
      var reply := NatPacket(c.key, c, false).Reverse();
      var r := Resolve(CommitAll(Commit(t, h, c), h, later), h, reply, now);
      && r.Some?
      && (r.value.0 == c <==> forall l :: l in later ==> l.revKey != reply)
      && (r.value.0 == c ==> NatPacket(reply, c, r.value.1) == c.key.Reverse())
  {
    hide Resolve, Commit, NatPacket, MayCommitAll;
    var reply := NatPacket(c.key, c, false).Reverse();
    RoundTrip(t, h, c, now);
    CommitsKeepConnections(Commit(t, h, c), h, later, reply, now);
    CommitEnters(t, h, c);
    LaterAreOthers(Commit(t, h, c), h, later, now, c, h.Of(c.key));
  }

  // ----- a connection that loses its packets

  /** A client, a server, and the address that the client is translated to. */
  const CLIENT := Endpoint(Addr(0, 1), 1000)
  const SERVER := Endpoint(Addr(0, 2), 80)
  const OUTSIDE := Endpoint(Addr(0, 3), 1000)

  /** A translated connection of the client, and one of the server that is not. */
  const FROM_CLIENT := Conn(1, Key(CLIENT, SERVER, 0x0800, 0, 6), Key(SERVER, OUTSIDE, 0x0800, 0, 6),
                            NatAction(true, false, false, false), true, false, 100, -2, 0)
  const FROM_SERVER := Conn(2, Key(SERVER, CLIENT, 0x0800, 0, 6), Key(CLIENT, SERVER, 0x0800, 0, 6),
                            NatAction(false, false, false, false), false, false, 100, -2, 0)

  /** The client has a translated connection to the server.  When the server then opens a connection to the
      client, which is not translated, the client's packets are taken for its replies. */
  lemma PacketsLost(h: Hashing)
    ensures
      var t := Commit(map[], h, FROM_CLIENT);
      var pkt := FROM_CLIENT.key;
      && MayCommit(map[], h, FROM_CLIENT, 0) && MayCommit(t, h, FROM_SERVER, 0)
      && TranslatesTo(FROM_CLIENT.key, FROM_CLIENT.action, FROM_CLIENT.revKey)
      && Resolve(t, h, pkt, 0) == Some((FROM_CLIENT, false))
      && Resolve(Commit(t, h, FROM_SERVER), h, pkt, 0) == Some((FROM_SERVER, true))
      && NatPacket(pkt, FROM_SERVER, true) == pkt != NatPacket(pkt, FROM_CLIENT, false)
  {
    hide Search, Commit;
    var c, d := FROM_CLIENT, FROM_SERVER;
    var t := Commit(map[], h, c);
    FirstCommit(h, c, d, 0);
    CommitKeepsConnections(t, h, d, c.key, 0);
  }

  /** A table with one translated connection. */
  lemma FirstCommit(h: Hashing, c: Conn, d: Conn, now: int)
    requires c.translated && !c.unNat && !d.unNat && now < c.expiration && now < d.expiration && c.id != d.id
    requires !d.translated && d.revKey == d.key.Reverse() && d.key != c.key && d.key != c.revKey
    ensures MayCommit(map[], h, c, now) && MayCommit(Commit(map[], h, c), h, d, now)
    ensures Resolve(Commit(map[], h, c), h, c.key, now) == Some((c, false))
  {
    var t := Commit(map[], h, c);
    assert Chain(t, h.Of(c.key))[0] == c;
    CommitKeepsOthers(map[], h, c, d.key, h.Of(d.key), now);
  }
}
