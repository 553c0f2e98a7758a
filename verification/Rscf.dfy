/**
 * RSCF screencast frames: the packer of `executor/bib-bridge.js` and the three readers of its layout, the frame
 * cache of `src/executor-ws.js`, the broadcast filter of `src/ws-server.js` and `src/cdp/remote-bridge/index.js`.
 */
module Rscf {
  import opened Options

  type byte = i: int | 0 <= i < 256

  type bytes = seq<byte>

  const MAGIC: bytes := [0x52, 0x53, 0x43, 0x46]

  const TWO32 := 0x1_0000_0000

  function U32(n: int): (b: bytes)
    ensures |b| == 4
  {
    var m := n % TWO32; // `>>> 0`
    [m / 0x100_0000, m / 0x1_0000 % 256, m / 256 % 256, m % 256]
  }

  function U16(n: nat): (b: bytes)
    requires n < 0x1_0000
    ensures |b| == 2
  {
    [n / 256, n % 256]
  }

  function ReadU16(b: bytes, i: nat): nat
    requires i + 2 <= |b|
  {
    b[i] as nat * 256 + b[i + 1] as nat
  }

  function ReadU32(b: bytes, i: nat): nat
    requires i + 4 <= |b|
  {
    b[i] as nat * 0x100_0000 + b[i + 1] as nat * 0x1_0000 + b[i + 2] as nat * 256 + b[i + 3] as nat
  }

  /** No packet without a uuid, nor for one whose length does not fit the header field. */
  function Pack(frameId: int, uuid: bytes, image: bytes): Option<bytes> {
    if uuid == [] || |uuid| >= 0x1_0000 then None
    else Some(MAGIC + U32(frameId) + U16(|uuid|) + uuid + image)
  }

  /** The packet as it is built: fields written into an allocated header, then the image appended. */
  method PackFrame(frameId: int, uuid: bytes, image: bytes) returns (packet: Option<bytes>)
    ensures packet == Pack(frameId, uuid, image)
  {
    if uuid == [] || |uuid| >= 0x1_0000 {
      return None;
    }
    var header := new byte[4 + 4 + 2 + |uuid|](_ => 0);
    Write(header, 0, MAGIC);
    assert header[..4] == MAGIC;
    Write(header, 4, U32(frameId));
    Write(header, 8, U16(|uuid|));
    Write(header, 10, uuid);
    assert header[..10 + |uuid|] == header[..];
    return Some(header[..] + image);
  }

  /** Writes a field into the header; what comes before it stays. */
  method Write(header: array<byte>, at: nat, field: bytes)
    requires at + |field| <= header.Length
    modifies header
    ensures header[..at + |field|] == old(header[..at]) + field
  {
    for i := 0 to |field|
      invariant header[..at + i] == old(header[..at]) + field[..i]
    {
      header[at + i] := field[i];
    }
  }

  predicate HasMagic(b: bytes) {
    |b| >= 4 && b[..4] == MAGIC
  }

  /** The session uuid under which the frame cache files a buffer; `None` when it is broadcast uncached or not a frame. */
  function CacheUuid(b: bytes): Option<bytes> {
    if !HasMagic(b) || |b| < 10 then None
    else
      var n := ReadU16(b, 8);
      if n > 0 && |b| > 10 + n then Some(b[10..10 + n]) else None
  }

  /** `parseRscfSessionUuid`. */
  function BroadcastUuid(b: bytes): Option<bytes> {
    if |b| < 10 || !HasMagic(b) then None
    else
      var n := ReadU16(b, 8);
      if |b| < 10 + n then None else Some(b[10..10 + n])
  }

  datatype Frame = Frame(frameId: nat, uuid: bytes, image: bytes)

  function Min(a: nat, b: nat): nat { if a <= b then a else b }

  /** `parseRemoteFrame`; slices past the end are shortened. */
  function ParseRemoteFrame(b: bytes): Option<Frame> {
    if |b| < 10 || !HasMagic(b) then None
    else
      var end := Min(10 + ReadU16(b, 8), |b|);
      Some(Frame(ReadU32(b, 4), b[10..end], b[end..]))
  }

  // ---------------------------------------------------------------- round trips

  lemma U32RoundTrip(n: int)
    ensures ReadU32(U32(n), 0) == n % TWO32
  {
    var m := n % TWO32;
    assert m / 0x1_0000 == m / 0x100_0000 * 256 + m / 0x1_0000 % 256;
    assert m / 256 == m / 0x1_0000 * 256 + m / 256 % 256;
  }

  lemma PackLayout(frameId: int, uuid: bytes, image: bytes)
    requires Pack(frameId, uuid, image).Some?
    ensures var b := Pack(frameId, uuid, image).value;
            && |b| == 10 + |uuid| + |image| && HasMagic(b)
            && ReadU32(b, 4) == frameId % TWO32 && ReadU16(b, 8) == |uuid|
            && b[10..10 + |uuid|] == uuid && b[10 + |uuid|..] == image
  {
    var b := Pack(frameId, uuid, image).value;
    U32RoundTrip(frameId);
    assert b[..4] == MAGIC;
    assert b[4..8] == U32(frameId);
    assert b[8..10] == U16(|uuid|);
    assert forall k | 0 <= k < 4 :: b[4 + k] == b[4..8][k] == U32(frameId)[k];
    assert forall k | 0 <= k < 2 :: b[8 + k] == b[8..10][k] == U16(|uuid|)[k];
  }

  /** All three readers recover what was packed; the cache takes the packet exactly when the image is not empty. */
  lemma PackParses(frameId: int, uuid: bytes, image: bytes)
    ensures Pack(frameId, uuid, image).Some? <==> 1 <= |uuid| <= 65535
    ensures Pack(frameId, uuid, image).Some? ==>
              var b := Pack(frameId, uuid, image).value;
              && BroadcastUuid(b) == Some(uuid)
              && CacheUuid(b) == (if image == [] then None else Some(uuid))
              && ParseRemoteFrame(b) == Some(Frame(frameId % TWO32, uuid, image))
  {
    if Pack(frameId, uuid, image).Some? {
      PackLayout(frameId, uuid, image);
    }
  }

  /** The packet byte by byte: `RSCF`, the frame id and the uuid's length in big-endian order, the uuid, the image. */
  lemma PackBytes(frameId: int, uuid: bytes, image: bytes, i: nat)
    requires Pack(frameId, uuid, image).Some?
    ensures var b := Pack(frameId, uuid, image).value;
            && |b| == 10 + |uuid| + |image|
            && b[0] as char == 'R' && b[1] as char == 'S' && b[2] as char == 'C' && b[3] as char == 'F'
            && b[4] as int * 0x100_0000 + b[5] as int * 0x1_0000 + b[6] as int * 256 + b[7] as int == frameId % 0x1_0000_0000
            && b[8] as int * 256 + b[9] as int == |uuid|
            && (i < |uuid| ==> b[10 + i] == uuid[i]) && (i < |image| ==> b[10 + |uuid| + i] == image[i])
  {
    PackLayout(frameId, uuid, image);
    var b := Pack(frameId, uuid, image).value;
    assert b[0] == MAGIC[0] && b[1] == MAGIC[1] && b[2] == MAGIC[2] && b[3] == MAGIC[3];
    if i < |uuid| { assert b[10..10 + |uuid|][i] == uuid[i]; }
    if i < |image| { assert b[10 + |uuid|..][i] == image[i]; }
  }

  /** Two packets are equal exactly when uuid, image and frame id modulo 2^32 are. */
  lemma PackInjective(f: int, u: bytes, x: bytes, g: int, v: bytes, y: bytes)
    requires Pack(f, u, x).Some? && Pack(g, v, y).Some?
    ensures Pack(f, u, x) == Pack(g, v, y) <==> f % TWO32 == g % TWO32 && u == v && x == y
  {
    PackParses(f, u, x);
    PackParses(g, v, y);
  }

  /** Whatever buffer the cache accepts, the broadcast filter reads the same uuid, and so does the frame parser. */
  lemma ReadersAgree(b: bytes)
    requires CacheUuid(b).Some?
    ensures BroadcastUuid(b) == CacheUuid(b)
    ensures ParseRemoteFrame(b).Some? && Some(ParseRemoteFrame(b).value.uuid) == CacheUuid(b)
    ensures ParseRemoteFrame(b).value.image != []
  {
  }

  lemma U16OfRead(b: bytes, i: nat)
    requires i + 2 <= |b|
    ensures ReadU16(b, i) < 0x1_0000 && U16(ReadU16(b, i)) == b[i..i + 2]
  {
  }

  lemma Above8(q: nat, w: nat)
    requires w < 256
    ensures (q * 256 + w) / 256 == q && (q * 256 + w) % 256 == w
  {
  }

  lemma Above16(q: nat, w: nat)
    requires w < 0x1_0000
    ensures (q * 0x1_0000 + w) / 0x1_0000 == q
  {
  }

  lemma Above24(q: nat, w: nat)
    requires w < 0x100_0000
    ensures (q * 0x100_0000 + w) / 0x100_0000 == q
  {
  }

  lemma U32Bytes(n: nat, x: byte, y: byte, z: byte, w: byte)
    requires n == x as int * 0x100_0000 + y as int * 0x1_0000 + z as int * 256 + w as int
    ensures U32(n) == [x, y, z, w]
  {
    Above8(x as int * 0x1_0000 + y as int * 256 + z as int, w as int);
    Above8(x as int * 256 + y as int, z as int);
    Above8(x as int, y as int);
    Above16(x as int * 256 + y as int, z as int * 256 + w as int);
    Above24(x as int, y as int * 0x1_0000 + z as int * 256 + w as int);
    assert n % TWO32 == n;
  }

  lemma U32OfRead(b: bytes, i: nat)
    requires i + 4 <= |b|
    ensures U32(ReadU32(b, i)) == b[i..i + 4]
  {
    U32Bytes(ReadU32(b, i), b[i], b[i + 1], b[i + 2], b[i + 3]);
    assert b[i..i + 4] == [b[i], b[i + 1], b[i + 2], b[i + 3]];
  }

  /** Packing what a parser read gives the buffer back. */
  lemma ParsePacks(b: bytes)
    requires |b| >= 10 && HasMagic(b) && ReadU16(b, 8) > 0 && |b| >= 10 + ReadU16(b, 8)
    ensures var n := ReadU16(b, 8); Pack(ReadU32(b, 4), b[10..10 + n], b[10 + n..]) == Some(b)
  {
    var n := ReadU16(b, 8);
    U16OfRead(b, 8);
    U32OfRead(b, 4);
    assert b == b[..4] + b[4..8] + b[8..10] + b[10..10 + n] + b[10 + n..];
  }

  /** What the frame parser makes of any buffer: nothing without header or magic; else the rest cut at the stated length. */
  lemma ParseRemoteFrameExactly(b: bytes)
    ensures ParseRemoteFrame(b).Some? <==>
              |b| >= 10 && b[0] as char == 'R' && b[1] as char == 'S' && b[2] as char == 'C' && b[3] as char == 'F'
    ensures ParseRemoteFrame(b).Some? ==>
              var f := ParseRemoteFrame(b).value;
              var stated := b[8] as int * 256 + b[9] as int;
              && f.uuid + f.image == b[10..] && |f.uuid| == (if stated <= |b| - 10 then stated else |b| - 10)
              && f.frameId == b[4] as int * 0x100_0000 + b[5] as int * 0x1_0000 + b[6] as int * 256 + b[7] as int
  {
    if |b| >= 10 {
      assert b[..4] == [b[0], b[1], b[2], b[3]];
      var end := Min(10 + ReadU16(b, 8), |b|);
      assert b[10..] == b[10..end] + b[end..];
    }
  }

  /** The cache takes exactly the packed frames with an image, each under the uuid it was packed for. */
  lemma CacheTakesExactlyPacked(b: bytes, uuid: bytes)
    ensures CacheUuid(b) == Some(uuid) <==> exists frameId: int, image :: image != [] && Pack(frameId, uuid, image) == Some(b)
  {
    if CacheUuid(b) == Some(uuid) {
      ParsePacks(b);
      assert b[10 + |uuid|..] != [];
    }
    if frameId: int, image :| image != [] && Pack(frameId, uuid, image) == Some(b) {
      PackParses(frameId, uuid, image);
    }
  }

  /** The broadcast filter reads a non-empty uuid off exactly the packed frames, with or without an image. */
  lemma FilterReadsExactlyPacked(b: bytes, uuid: bytes)
    requires uuid != []
    ensures BroadcastUuid(b) == Some(uuid) <==> exists frameId: int, image :: Pack(frameId, uuid, image) == Some(b)
  {
    if BroadcastUuid(b) == Some(uuid) {
      ParsePacks(b);
    }
    if frameId: int, image :| Pack(frameId, uuid, image) == Some(b) {
      PackParses(frameId, uuid, image);
    }
  }

  // ---------------------------------------------------------------- broadcasting

  const BINARY_BUFFERED_LIMIT: nat := 2 * 1024 * 1024

  /** A dashboard client; `accepts` says whether its `send` succeeds. */
  datatype Client = Client(open: bool, buffered: nat, accepts: bool)

  function SubscribedIn(subscriptions: map<nat, set<bytes>>, c: nat): set<bytes> {
    if c in subscriptions then subscriptions[c] else {}
  }

  predicate Ready(client: Client) {
    client.open && client.buffered <= BINARY_BUFFERED_LIMIT && client.accepts
  }

  /** A client with no subscriptions gets every frame; one with some gets only frames of those sessions. */
  predicate Wants(subs: set<bytes>, uuid: Option<bytes>) {
    subs == {} || (uuid.Some? && uuid.value != [] && uuid.value in subs)
  }

  function Audience(clients: map<nat, Client>, subscriptions: map<nat, set<bytes>>, uuid: Option<bytes>): set<nat> {
    set c <- clients | Ready(clients[c]) && Wants(SubscribedIn(subscriptions, c), uuid)
  }

  class Dashboard {
    var clients: map<nat, Client>
    var subscriptions: map<nat, set<bytes>>

    function Subscribed(c: nat): set<bytes>
      reads this
    {
      SubscribedIn(subscriptions, c)
    }

    method AddBinarySubscription(c: nat, uuid: bytes)
      modifies `subscriptions
      ensures Subscribed(c) == old(Subscribed(c)) + if uuid == [] then {} else {uuid}
      ensures forall d | d != c :: Subscribed(d) == old(Subscribed(d))
    {
      if uuid != [] {
        subscriptions := subscriptions[c := (if c in subscriptions then subscriptions[c] else {}) + {uuid}];
      }
    }

    method ClearBinarySubscriptions(c: nat)
      modifies `subscriptions
      ensures Subscribed(c) == {} && forall d | d != c :: Subscribed(d) == old(Subscribed(d))
    {
      subscriptions := subscriptions - {c};
    }

    /** `broadcastBinary`: the header is parsed at most once, when the first filtered client is reached. */
    method BroadcastBinary(data: bytes) returns (count: nat, reached: set<nat>)
      ensures reached == Audience(clients, subscriptions, BroadcastUuid(data)) && count == |reached|
    {
      count, reached := 0, {};
      ghost var header := BroadcastUuid(data);
      var parsed, uuid := false, None;
      var todo := clients.Keys;
      while todo != {}
        invariant todo <= clients.Keys
        invariant parsed ==> uuid == header
        invariant reached == Audience(clients, subscriptions, header) - todo && count == |reached|
      {
        var c :| c in todo;
        todo := todo - {c};
        var subs := SubscribedIn(subscriptions, c);
        if clients[c].open && clients[c].buffered <= BINARY_BUFFERED_LIMIT {
          if subs != {} && !parsed {
            uuid, parsed := BroadcastUuid(data), true;
          }
          if Wants(subs, uuid) && clients[c].accepts {
            assert c !in reached;
            count, reached := count + 1, reached + {c};
          }
        }
        assert c in reached <==> Ready(clients[c]) && Wants(subs, header);
      }
    }
  }

  /** A packed frame reaches a filtering client exactly when that client subscribed to its session. */
  lemma SubscribersGetTheirFrames(subs: set<bytes>, frameId: int, uuid: bytes, image: bytes)
    requires Pack(frameId, uuid, image).Some? && subs != {}
    ensures Wants(subs, BroadcastUuid(Pack(frameId, uuid, image).value)) <==> uuid in subs
  {
    PackParses(frameId, uuid, image);
  }

  /**
   * Who gets a buffer: the open clients with at most 2 MiB waiting whose `send` succeeds, if they have no
   * subscriptions, or the buffer is a packed frame of a session they subscribed to.
   */
  lemma AudienceExactly(clients: map<nat, Client>, subscriptions: map<nat, set<bytes>>, data: bytes, c: nat)
    ensures c in Audience(clients, subscriptions, BroadcastUuid(data)) <==>
              && c in clients && clients[c].open && clients[c].buffered <= 2 * 1024 * 1024 && clients[c].accepts
              && (c !in subscriptions || subscriptions[c] == {}
                  || exists frameId: int, uuid, image :: uuid in subscriptions[c] && Pack(frameId, uuid, image) == Some(data))
  {
    if c in subscriptions && BroadcastUuid(data).Some? && BroadcastUuid(data).value != [] && BroadcastUuid(data).value in subscriptions[c] {
      FilterReadsExactlyPacked(data, BroadcastUuid(data).value);
    }
    if c in subscriptions {
      if frameId: int, uuid, image :| uuid in subscriptions[c] && Pack(frameId, uuid, image) == Some(data) {
        FilterReadsExactlyPacked(data, uuid);
      }
    }
  }
}
