/** The voice packet codec (voice/protocol.go). */
module Protocol {
  import opened Basics
  import opened Float32
  import Frequency

  const CURRENT_VERSION: byte := 1
  const HEADER_SIZE: nat := 27
  const MAGIC: Magic := [86, 67, 83]    // "VCS"

  const VOICE: byte := 0
  const HELLO: byte := 1
  const HELLO_ACK: byte := 2
  const KEEPALIVE: byte := 3
  const BYE: byte := 4

  type Magic = m: seq<byte> | |m| == 3 witness [0, 0, 0]

  datatype Packet = Packet(
    magic: Magic,
    version: byte,
    kind: byte,
    flags: byte,
    sequence: bv32,
    frequency: bv32,
    sender: Guid,
    payload: seq<byte>
  )

  datatype ParseError = TooShort | InvalidMagic(found: Magic) | UnsupportedVersion(version: byte)

  function HelloAck(client: Guid): Packet {
    Packet(MAGIC, CURRENT_VERSION, HELLO_ACK, 0, 0, 0, client, [])
  }

  function Voice(client: Guid, sequence: bv32, frequency: bv32, payload: seq<byte>): Packet {
    Packet(MAGIC, CURRENT_VERSION, VOICE, 0, sequence, frequency, client, payload)
  }

  function Keepalive(client: Guid): Packet {
    Packet(MAGIC, CURRENT_VERSION, KEEPALIVE, 0, 0, 0, client, [])
  }

  // ---- The wire format, stated on values ----

  function BigEndian24(w: bv32): seq<byte> {
    [((w >> 16) & 0xFF) as byte, ((w >> 8) & 0xFF) as byte, (w & 0xFF) as byte]
  }

  function FromBigEndian24(a: byte, b: byte, c: byte): bv32 {
    ((a as bv32) << 16) | ((b as bv32) << 8) | (c as bv32)
  }

  /** The first 11 bytes: everything before the session identifier. */
  function Header(p: Packet): (h: seq<byte>)
    ensures |h| == 11
  {
    p.magic + [(p.version << 4) | p.kind, p.flags] + BigEndian24(p.sequence) + BigEndian24(p.frequency)
  }

  function Encode(p: Packet): (d: seq<byte>)
    ensures |d| == HEADER_SIZE + |p.payload|
  {
    Header(p) + p.sender + p.payload
  }

  function Decode(d: seq<byte>): Result<Packet, ParseError> {
    if |d| < HEADER_SIZE then Err(TooShort)
    else if d[..3] != MAGIC then Err(InvalidMagic(d[..3]))
    else if (d[3] >> 4) & 0x0F != CURRENT_VERSION then Err(UnsupportedVersion((d[3] >> 4) & 0x0F))
    else Ok(Packet(d[..3], (d[3] >> 4) & 0x0F, d[3] & 0x0F, d[4],
                   FromBigEndian24(d[5], d[6], d[7]), FromBigEndian24(d[8], d[9], d[10]),
                   d[11..HEADER_SIZE], d[HEADER_SIZE..]))
  }

  /** A buffer that agrees with the packet field by field starts with its header. */
  lemma HeaderFields(p: Packet, d: seq<byte>)
    requires 11 <= |d|
    requires [d[0], d[1], d[2]] == p.magic
    requires d[3] == (p.version << 4) | p.kind && d[4] == p.flags
    requires [d[5], d[6], d[7]] == BigEndian24(p.sequence)
    requires [d[8], d[9], d[10]] == BigEndian24(p.frequency)
    ensures d[..11] == Header(p)
  {
  }

  /**
   Where an accepted datagram holds each field, the most significant byte and bits first:
   3 bytes of magic, 4 bits of version, 4 of type, 8 of flags, 24 of sequence number, 24 of
   frequency, 16 bytes of session identifier, the payload.
   */
  lemma WireLayout(d: seq<byte>, p: Packet)
    requires Decode(d) == Ok(p)
    ensures 27 <= |d| && d[..3] == [0x56, 0x43, 0x53] && p.magic == d[..3]
    ensures p.version == 1 && d[3] >> 4 == 1 && p.kind == d[3] & 0x0F && p.flags == d[4]
    ensures p.sequence >> 16 == d[5] as bv32 && (p.sequence >> 8) & 0xFF == d[6] as bv32 && p.sequence & 0xFF == d[7] as bv32
    ensures p.frequency >> 16 == d[8] as bv32 && (p.frequency >> 8) & 0xFF == d[9] as bv32 && p.frequency & 0xFF == d[10] as bv32
    ensures p.sender == d[11..27] && p.payload == d[27..]
  {
  }

  /** The acknowledgements, byte for byte: type 2 or 3, no flags, sequence number, frequency or payload. */
  lemma AcknowledgementBytes(client: Guid)
    ensures Encode(HelloAck(client)) == [0x56, 0x43, 0x53, 0x12, 0, 0, 0, 0, 0, 0, 0] + client
    ensures Encode(Keepalive(client)) == [0x56, 0x43, 0x53, 0x13, 0, 0, 0, 0, 0, 0, 0] + client
  {
  }

  /** A datagram is refused for the first of its length, magic and version that is wrong. */
  lemma RefusedBecause(d: seq<byte>)
    ensures Decode(d) == Err(TooShort) <==> |d| < 27
    ensures 27 <= |d| ==> (Decode(d) == Err(InvalidMagic(d[..3])) <==> d[..3] != [0x56, 0x43, 0x53])
    ensures 27 <= |d| && d[..3] == [0x56, 0x43, 0x53] ==>
      (Decode(d) == Err(UnsupportedVersion(d[3] >> 4)) <==> d[3] >> 4 != 1)
  {
  }

  /** What a packet must look like for the wire format to hold all of it. */
  predicate WellFormed(p: Packet) {
    p.magic == MAGIC && p.version == CURRENT_VERSION && p.kind < 16 &&
    p.sequence < 0x100_0000 && p.frequency < 0x100_0000
  }

  /** A datagram is accepted exactly when it is long enough and carries the magic and version 1. */
  lemma AcceptedIff(d: seq<byte>)
    ensures Decode(d).Ok? <==> |d| >= 27 && d[..3] == [0x56, 0x43, 0x53] && d[3] & 0xF0 == 0x10
  {
  }

  /** Re-encoding an accepted datagram gives back the datagram, whatever its length. */
  lemma EncodeInvertsDecode(d: seq<byte>)
    requires Decode(d).Ok?
    ensures WellFormed(Decode(d).value)
    ensures Encode(Decode(d).value) == d
  {
  }

  /** A packet survives encoding exactly when it is well formed. */
  lemma DecodeInvertsEncode(p: Packet)
    ensures Decode(Encode(p)) == Ok(p) <==> WellFormed(p)
  {
  }

  /** A voice packet survives the wire exactly when its sequence number and frequency fit in 24 bits. */
  lemma VoiceSurvivesIff(client: Guid, sequence: bv32, frequency: bv32, payload: seq<byte>)
    ensures var p := Voice(client, sequence, frequency, payload);
            Decode(Encode(p)) == Ok(p) <==> sequence < 0x100_0000 && frequency < 0x100_0000
  {
    DecodeInvertsEncode(Voice(client, sequence, frequency, payload));
  }

  /** The codec loses nothing between two accepted datagrams. */
  lemma DecodeInjective(a: seq<byte>, b: seq<byte>)
    requires Decode(a).Ok? && Decode(a) == Decode(b)
    ensures a == b
  {
    EncodeInvertsDecode(a);
    EncodeInvertsDecode(b);
  }

  // ---- The packet object ----

  class VCSPacket {
    var magic: Magic
    var version: byte
    var kind: byte
    var flags: byte
    var sequence: bv32
    var frequency: bv32
    var sender: Guid
    var payload: seq<byte>

    constructor (p: Packet)
      ensures Value() == p
    {
      magic, version, kind, flags := p.magic, p.version, p.kind, p.flags;
      sequence, frequency, sender, payload := p.sequence, p.frequency, p.sender, p.payload;
    }

    function Value(): Packet
      reads this
    {
      Packet(magic, version, kind, flags, sequence, frequency, sender, payload)
    }

    predicate IsPTTActive()
      reads this
    {
      flags & 0x01 != 0
    }

    predicate IsIntercom()
      reads this
    {
      flags & 0x02 != 0
    }

    method SetPTT(active: bool)
      modifies this`flags
      ensures IsPTTActive() == active
      ensures flags & 0xFE == old(flags) & 0xFE
    {
      if active {
        flags := flags | 0x01;
      } else {
        flags := flags & 0xFE;
      }
    }

    method SetIntercom(active: bool)
      modifies this`flags
      ensures IsIntercom() == active
      ensures flags & 0xFD == old(flags) & 0xFD
    {
      if active {
        flags := flags | 0x02;
      } else {
        flags := flags & 0xFD;
      }
    }

    /** Fills a fresh buffer field by field. */
    method SerializePacket() returns (data: array<byte>)
      ensures fresh(data) && data[..] == Encode(Value())
    {
      data := new byte[HEADER_SIZE + |payload|](_ => 0);
      FillHeader(data);
      forall i | 11 <= i < HEADER_SIZE {
        data[i] := sender[i - 11];
      }
      assert data[..11] == Header(Value());
      forall i | HEADER_SIZE <= i < data.Length {
        data[i] := payload[i - HEADER_SIZE];
      }
      assert data[..11] == Header(Value()) && data[11..27] == sender && data[27..] == payload;
      assert data[..] == data[..11] + data[11..27] + data[27..];
    }

    method FillHeader(data: array<byte>)
      requires HEADER_SIZE <= data.Length
      modifies data
      ensures data[..11] == Header(Value())
    {
      data[0], data[1], data[2] := magic[0], magic[1], magic[2];
      data[3], data[4] := (version << 4) | kind, flags;
      PutBigEndian24(data, 5, sequence);
      PutBigEndian24(data, 8, frequency);
      HeaderFields(Value(), data[..]);
    }
  }

  method PutBigEndian24(data: array<byte>, at: nat, w: bv32)
    requires at + 3 <= data.Length
    modifies data
    ensures [data[at], data[at + 1], data[at + 2]] == BigEndian24(w)
    ensures forall i | 0 <= i < data.Length && !(at <= i < at + 3) :: data[i] == old(data[i])
  {
    data[at] := ((w >> 16) & 0xFF) as byte;
    data[at + 1] := ((w >> 8) & 0xFF) as byte;
    data[at + 2] := (w & 0xFF) as byte;
  }

  /** Parses a datagram into a packet object, checking length, magic and version in this order. */
  method ParsePacket(data: seq<byte>) returns (packet: VCSPacket?, error: Option<ParseError>)
    ensures match Decode(data)
            case Ok(p) => packet != null && fresh(packet) && packet.Value() == p && error == None
            case Err(e) => packet == null && error == Some(e)
  {
    if |data| < HEADER_SIZE {
      return null, Some(TooShort);
    }
    var p := new VCSPacket(Packet(data[..3], 0, 0, 0, 0, 0, data[11..HEADER_SIZE], []));
    if p.magic != MAGIC {
      return null, Some(InvalidMagic(p.magic));
    }
    var versionType := data[3];
    p.version := (versionType >> 4) & 0x0F;
    if p.version != CURRENT_VERSION {
      return null, Some(UnsupportedVersion(p.version));
    }
    p.kind := versionType & 0x0F;
    p.flags := data[4];
    p.sequence := FromBigEndian24(data[5], data[6], data[7]);
    p.frequency := FromBigEndian24(data[8], data[9], data[10]);
    if |data| > HEADER_SIZE {
      p.payload := data[HEADER_SIZE..];
    }
    return p, None;
  }

  // ---- The frequency a packet is matched by ----

  function KHz(p: Packet): nat {
    p.frequency as nat
  }

  function FrequencyAsFloat32(p: Packet): Float {
    Frequency.Megahertz(KHz(p))
  }

  /** A packet is matched by the float nearest to its frequency in MHz, the even one in a tie. */
  lemma FrequencyIsNearest(p: Packet, k: nat, g: Float)
    requires p.frequency as nat == k && k < 0x100_0000 && g.Finite?
    ensures FrequencyAsFloat32(p).Finite? && !FrequencyAsFloat32(p).negative
    ensures var f, n := FrequencyAsFloat32(p), k * Pow2(BIAS);
            Distance(f, n, 1000) <= Distance(g, n, 1000) &&
            (Distance(f, n, 1000) == Distance(g, n, 1000) && SignedUnits(f) != SignedUnits(g) ==> f.significand % 2 == 0)
  {
    Frequency.MegahertzIsNearest(k, g);
  }
}
