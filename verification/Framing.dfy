/** How the relay cuts the first message off a fresh TCP connection and tells host
    registrations, client joins and stray HTTP requests apart. */
module Framing {
  import opened Options
  import opened Words

  const TYPE_TCP: byte := 0x54  // 'T'
  const TYPE_UDP: byte := 0x55  // 'U'
  const ROOM_CODE_LEN: int := 4

  type Bytes = seq<byte>

  datatype HostRegister = HostRegister(typeByte: byte, port: int, code: Bytes)

  datatype ClientJoin = ClientJoin(typeByte: byte, code: Bytes)

  datatype DecodeError = TooShort | InvalidType | BadCodeLength | Truncated

  datatype Result<T> = Ok(value: T) | Err(error: DecodeError)

  datatype Incoming = Host(hr: HostRegister) | Join(cj: ClientJoin)

  /** What the connection handler does with a connection. */
  datatype Dispatch = HttpRedirect | Closed | ErrorReply | Accept(message: Incoming)

  // ----- decoders -----

  predicate IsType(b: byte) { b == TYPE_TCP || b == TYPE_UDP }

  function DecodeHostRegister(data: Bytes): Result<HostRegister> {
    if |data| < 4 then Err(TooShort)
    else if !IsType(data[0]) then Err(InvalidType)
    else if data[3] as int > ROOM_CODE_LEN then Err(BadCodeLength)
    else if |data| < 4 + data[3] as int then Err(Truncated)
    else Ok(HostRegister(data[0], data[1] as int + 0x100 * data[2] as int, data[4..4 + data[3] as int]))
  }

  function DecodeClientJoin(data: Bytes): Result<ClientJoin> {
    if |data| < 2 then Err(TooShort)
    else if !IsType(data[0]) then Err(InvalidType)
    else if data[1] as int != ROOM_CODE_LEN then Err(BadCodeLength)
    else if |data| < 2 + data[1] as int then Err(Truncated)
    else Ok(ClientJoin(data[0], data[2..2 + data[1] as int]))
  }

  function ClassifyIncomingTCP(data: Bytes): Result<Incoming> {
    if |data| < 2 then Err(TooShort)
    else if !IsType(data[0]) then Err(InvalidType)
    else if |data| >= 4 && data[3] as int <= ROOM_CODE_LEN && |data| == 4 + data[3] as int then
      match DecodeHostRegister(data)
      case Ok(hr) => Ok(Host(hr))
      case Err(e) => Err(e)
    else
      match DecodeClientJoin(data)
      case Ok(cj) => Ok(Join(cj))
      case Err(e) => Err(e)
  }

  // ----- the wire formats -----

  predicate WellFormedHost(hr: HostRegister) {
    IsType(hr.typeByte) && 0 <= hr.port < 0x1_0000 && |hr.code| <= ROOM_CODE_LEN
  }

  predicate WellFormedJoin(cj: ClientJoin) {
    IsType(cj.typeByte) && |cj.code| == ROOM_CODE_LEN
  }

  function EncodeHost(hr: HostRegister): Bytes
    requires WellFormedHost(hr)
  {
    [hr.typeByte, (hr.port % 0x100) as byte, (hr.port / 0x100) as byte, |hr.code| as byte] + hr.code
  }

  function EncodeJoin(cj: ClientJoin): Bytes
    requires WellFormedJoin(cj)
  {
    [cj.typeByte, ROOM_CODE_LEN as byte] + cj.code
  }

  /** The letters of room codes: A-Z and 2-9 without I, O, 0 and 1. */
  predicate InAlphabet(b: byte) {
    (0x41 <= b <= 0x5A && b != 0x49 && b != 0x4F) || 0x32 <= b <= 0x39
  }

  // ----- the reader -----

  class Reader {
    var stream: Bytes  // what the peer still delivers before it stops or times out

    constructor (stream: Bytes)
      ensures this.stream == stream
    {
      this.stream := stream;
    }

    method Peek(n: nat) returns (p: Option<Bytes>)
      ensures p == if n <= |stream| then Some(stream[..n]) else None
    {
      p := if n <= |stream| then Some(stream[..n]) else None;
    }

    /** Reads exactly n bytes, or everything and fails. */
    method ReadFull(n: nat) returns (buf: Option<Bytes>)
      modifies this
      ensures n <= |old(stream)| ==> buf == Some(old(stream)[..n]) && stream == old(stream)[n..]
      ensures n > |old(stream)| ==> buf == None && stream == []
    {
      if n <= |stream| {
        buf, stream := Some(stream[..n]), stream[n..];
      } else {
        buf, stream := None, [];
      }
    }
  }

  /** The length of the first message of a stream of at least four bytes. */
  function MessageLength(stream: Bytes): nat
    requires |stream| >= 4
  {
    if stream[3] <= 4 then 4 + stream[3] as int else 2 + stream[1] as int
  }

  method ReadInitialMessage(br: Reader) returns (message: Option<Bytes>)
    modifies br
    ensures var s := old(br.stream);
      if |s| >= 4 && MessageLength(s) <= |s|
      then message == Some(s[..MessageLength(s)]) && br.stream == s[MessageLength(s)..]
      else message == None && br.stream == if |s| < 4 then s else []
  {
    var peek := br.Peek(4);
    if peek == None {
      return None;
    }
    if peek.value[3] <= 4 {
      message := br.ReadFull(4 + peek.value[3] as int);
      return;
    }
    var header := br.Peek(2);
    if header == None {
      return None;
    }
    message := br.ReadFull(2 + header.value[1] as int);
  }

  const HTTP_METHOD_PREFIXES: seq<Bytes> := [
    [0x47, 0x45, 0x54, 0x20], [0x50, 0x4F, 0x53, 0x54], [0x48, 0x45, 0x41, 0x44],
    [0x50, 0x55, 0x54, 0x20], [0x44, 0x45, 0x4C, 0x45], [0x4F, 0x50, 0x54, 0x49],
    [0x43, 0x4F, 0x4E, 0x4E], [0x50, 0x41, 0x54, 0x43], [0x54, 0x52, 0x41, 0x43]]

  predicate LooksLikeHTTPRequest(peek: Bytes) {
    |peek| >= 4 && peek[..4] in HTTP_METHOD_PREFIXES
  }

  /** What any stream leads to, and how much of it is left for later. */
  function Outcome(stream: Bytes): (Dispatch, Bytes) {
    if |stream| >= 4 && LooksLikeHTTPRequest(stream[..4]) then (HttpRedirect, stream)
    else if |stream| < 4 then (Closed, stream)
    else if MessageLength(stream) > |stream| then (Closed, [])
    else
      var n := MessageLength(stream);
      match ClassifyIncomingTCP(stream[..n])
      case Ok(message) => (Accept(message), stream[n..])
      case Err(_) => (ErrorReply, stream[n..])
  }

  method HandleTCPConn(br: Reader) returns (d: Dispatch)
    modifies br
    ensures (d, br.stream) == Outcome(old(br.stream))
  {
    var peek := br.Peek(4);
    if peek != None && LooksLikeHTTPRequest(peek.value) {
      return HttpRedirect;
    }
    var first := ReadInitialMessage(br);
    if first == None {
      return Closed;
    }
    match ClassifyIncomingTCP(first.value) {
      case Ok(message) => d := Accept(message);
      case Err(_) => d := ErrorReply;
    }
  }

  // ----- agreement of reader and classifier -----

  /** For a valid type byte the reader cuts a message as a host registration exactly
      when the classifier takes it for one, and then decoding it cannot fail. */
  lemma ReaderAndClassifierAgree(stream: Bytes)
    requires |stream| >= 4 && MessageLength(stream) <= |stream| && IsType(stream[0])
    ensures var r := ClassifyIncomingTCP(stream[..MessageLength(stream)]);
      && (stream[3] <= 4 <==> r.Ok? && r.value.Host?)
      && (stream[3] > 4 ==> (r.Ok? <==> stream[1] as int == ROOM_CODE_LEN) && (r.Ok? ==> r.value.Join?))
  {
  }

  /** Every well-formed host registration is read with its own length and decoded to
      its own fields, whatever follows it. */
  lemma HostRegisterRoundTrip(hr: HostRegister, rest: Bytes)
    requires WellFormedHost(hr)
    ensures Outcome(EncodeHost(hr) + rest) == (Accept(Host(hr)), rest)
  {
    var m := EncodeHost(hr);
    var stream := m + rest;
    if LooksLikeHTTPRequest(stream[..4]) {
      NoHttpPrefix(stream[..4]);
    }
    assert MessageLength(stream) == |m| && stream[..|m|] == m && stream[|m|..] == rest;
    assert m[4..4 + |hr.code|] == hr.code;
  }

  /** Only TRACE starts with a type byte, and its fourth byte is no code length. */
  lemma NoHttpPrefix(p: Bytes)
    requires |p| == 4 && IsType(p[0]) && LooksLikeHTTPRequest(p)
    ensures p[1] == 0x52 && p[3] == 0x43
  {
  }

  /** A client join is read as itself exactly when the second byte of its code is not
      a plausible host code length. */
  lemma ClientJoinRoundTrip(cj: ClientJoin, rest: Bytes)
    requires WellFormedJoin(cj)
    ensures Outcome(EncodeJoin(cj) + rest) == (Accept(Join(cj)), rest) <==> cj.code[1] > 4
  {
    var m := EncodeJoin(cj);
    var stream := m + rest;
    if LooksLikeHTTPRequest(stream[..4]) {
      NoHttpPrefix(stream[..4]);
    }
    if cj.code[1] > 4 {
      assert MessageLength(stream) == |m| && stream[..|m|] == m && stream[|m|..] == rest;
      assert m[2..6] == cj.code;
    } else if MessageLength(stream) <= |stream| {
      ReaderAndClassifierAgree(stream);
    }
  }

  /** Codes of the room alphabet always qualify. */
  lemma AlphabetJoinRoundTrip(cj: ClientJoin, rest: Bytes)
    requires WellFormedJoin(cj) && forall b <- cj.code :: InAlphabet(b)
    ensures Outcome(EncodeJoin(cj) + rest) == (Accept(Join(cj)), rest)
  {
    assert InAlphabet(cj.code[1]);
    ClientJoinRoundTrip(cj, rest);
  }

  /** The converse: an accepted stream begins with the encoding of what was accepted. */
  lemma AcceptedWasEncoded(stream: Bytes)
    requires Outcome(stream).0.Accept?
    ensures var (d, rest) := Outcome(stream);
      match d.message
      case Host(hr) => WellFormedHost(hr) && stream == EncodeHost(hr) + rest
      case Join(cj) => WellFormedJoin(cj) && stream == EncodeJoin(cj) + rest
  {
    var n := MessageLength(stream);
    var m := stream[..n];
    assert stream == m + stream[n..];
    match Outcome(stream).0.message {
      case Host(hr) =>
        assert m == EncodeHost(hr);
      case Join(cj) =>
        assert n == 6;
        assert m == EncodeJoin(cj);
    }
  }

  /** A well-formed message is never mistaken for HTTP. */
  lemma NeverHttp(hr: HostRegister, cj: ClientJoin, rest: Bytes)
    requires WellFormedHost(hr) && WellFormedJoin(cj)
    ensures Outcome(EncodeHost(hr) + rest).0 != HttpRedirect
    ensures Outcome(EncodeJoin(cj) + rest).0 != HttpRedirect
  {
    var h, j := EncodeHost(hr) + rest, EncodeJoin(cj) + rest;
    if LooksLikeHTTPRequest(h[..4]) {
      NoHttpPrefix(h[..4]);
    }
    if LooksLikeHTTPRequest(j[..4]) {
      NoHttpPrefix(j[..4]);
    }
  }

  // ----- the same, byte by byte -----

  predicate Is(b: byte, c: char) { b as int == c as int }

  ghost predicate StartsWith(stream: Bytes, text: string) {
    |text| <= |stream| && forall i :: 0 <= i < |text| ==> stream[i] as int == text[i] as int
  }

  /** Exactly the streams that begin like a request are redirected. */
  lemma RedirectedExactly(s: Bytes)
    ensures Outcome(s).0 == HttpRedirect <==>
      || StartsWith(s, "GET ") || StartsWith(s, "HEAD") || StartsWith(s, "POST") || StartsWith(s, "PUT ")
      || StartsWith(s, "DELE") || StartsWith(s, "CONN") || StartsWith(s, "OPTI") || StartsWith(s, "TRAC")
      || StartsWith(s, "PATC")
  {
    hide StartsWith, HTTP_METHOD_PREFIXES;
    NinePrefixes(s);
    if |s| >= 4 {
      assert s[..4][..4] == s[..4];
    }
  }

  lemma NinePrefixes(s: Bytes)
    ensures |s| >= 4 && s[..4] in HTTP_METHOD_PREFIXES <==>
      || StartsWith(s, "GET ") || StartsWith(s, "HEAD") || StartsWith(s, "POST") || StartsWith(s, "PUT ")
      || StartsWith(s, "DELE") || StartsWith(s, "CONN") || StartsWith(s, "OPTI") || StartsWith(s, "TRAC")
      || StartsWith(s, "PATC")
  {
    hide StartsWith;
    var p := HTTP_METHOD_PREFIXES;
    FourBytes(s, "GET ", p[0]);
    FourBytes(s, "POST", p[1]);
    FourBytes(s, "HEAD", p[2]);
    FourBytes(s, "PUT ", p[3]);
    FourBytes(s, "DELE", p[4]);
    FourBytes(s, "OPTI", p[5]);
    FourBytes(s, "CONN", p[6]);
    FourBytes(s, "PATC", p[7]);
    FourBytes(s, "TRAC", p[8]);
  }

  lemma FourBytes(s: Bytes, text: string, w: Bytes)
    requires |text| == |w| == 4 && forall i :: 0 <= i < 4 ==> w[i] as int == text[i] as int
    ensures StartsWith(s, text) <==> |s| >= 4 && s[..4] == w
  {
    if |s| >= 4 && s[..4] == w {
      assert forall i :: 0 <= i < 4 ==> s[i] == s[..4][i];
    }
  }

  /** Every request of HTTP is redirected. */
  lemma RequestsAreRedirected(s: Bytes)
    requires
      || StartsWith(s, "GET ") || StartsWith(s, "HEAD ") || StartsWith(s, "POST ") || StartsWith(s, "PUT ")
      || StartsWith(s, "DELETE ") || StartsWith(s, "CONNECT ") || StartsWith(s, "OPTIONS ") || StartsWith(s, "TRACE ")
      || StartsWith(s, "PATCH ")
    ensures Outcome(s) == (HttpRedirect, s)
  {
    RedirectedExactly(s);
  }

  /** What becomes of a stream that is not redirected: with a fourth byte up to 4 it has
      to be a registration of that code length, otherwise a join. A stream that ends in
      the middle is closed without an answer, and what is no message gets an error. */
  lemma HandledExactly(s: Bytes)
    requires Outcome(s).0 != HttpRedirect
    ensures |s| < 4 ==> Outcome(s) == (Closed, s)
    ensures |s| >= 4 && s[3] <= 4 ==>
      var n := s[3] as int;
      Outcome(s) ==
        if |s| < 4 + n then (Closed, [])
        else if TOrU(s[0]) then
          (Accept(Host(HostRegister(s[0], s[1] as int + 256 * s[2] as int, s[4..4 + n]))), s[4 + n..])
        else (ErrorReply, s[4 + n..])
    ensures |s| >= 4 && s[3] > 4 ==>
      var n := s[1] as int;
      Outcome(s) ==
        if |s| < 2 + n then (Closed, [])
        else if n == 4 && (TOrU(s[0])) then
          (Accept(Join(ClientJoin(s[0], s[2..6]))), s[6..])
        else (ErrorReply, s[2 + n..])
  {
    if |s| >= 4 && MessageLength(s) <= |s| {
      var n := MessageLength(s);
      var m := s[..n];
      assert forall i :: 0 <= i < n ==> m[i] == s[i];
      if s[3] <= 4 {
        assert m[4..n] == s[4..n];
      } else if n == 6 {
        assert m[2..6] == s[2..6];
      }
    }
  }

  predicate TOrU(b: byte) { Is(b, 'T') || Is(b, 'U') }

  /** Each decoder on its own: what it takes, whatever follows, and why it refuses. */
  lemma HostDecoderExactly(data: Bytes)
    ensures |data| < 4 ==> DecodeHostRegister(data) == Err(TooShort)
    ensures |data| >= 4 && !TOrU(data[0]) ==> DecodeHostRegister(data) == Err(InvalidType)
    ensures |data| >= 4 && TOrU(data[0]) && data[3] > 4 ==> DecodeHostRegister(data) == Err(BadCodeLength)
    ensures |data| >= 4 && TOrU(data[0]) && data[3] <= 4 && |data| < 4 + data[3] as int ==>
      DecodeHostRegister(data) == Err(Truncated)
    ensures |data| >= 4 && TOrU(data[0]) && data[3] <= 4 && |data| >= 4 + data[3] as int ==>
      DecodeHostRegister(data)
        == Ok(HostRegister(data[0], data[1] as int + 256 * data[2] as int, data[4..4 + data[3] as int]))
  {
  }

  lemma JoinDecoderExactly(data: Bytes)
    ensures |data| < 2 ==> DecodeClientJoin(data) == Err(TooShort) && ClassifyIncomingTCP(data) == Err(TooShort)
    ensures |data| >= 2 && !TOrU(data[0]) ==> DecodeClientJoin(data) == Err(InvalidType)
    ensures |data| >= 2 && TOrU(data[0]) && data[1] != 4 ==> DecodeClientJoin(data) == Err(BadCodeLength)
    ensures 2 <= |data| < 6 && TOrU(data[0]) && data[1] == 4 ==> DecodeClientJoin(data) == Err(Truncated)
    ensures |data| >= 6 && TOrU(data[0]) && data[1] == 4 ==>
      DecodeClientJoin(data) == Ok(ClientJoin(data[0], data[2..6]))
  {
  }

  const ALPHABET: string := "ABCDEFGHJKLMNPQRSTUVWXYZ23456789"

  lemma LetterIs(i: nat)
    requires i < 32
    ensures |ALPHABET| == 32
    ensures ALPHABET[i] as int == if i < 8 then 65 + i else if i < 13 then 66 + i else if i < 24 then 67 + i else 26 + i
  {
  }

  /** The letters of room codes are the 32 that cannot be mistaken for each other. */
  lemma AlphabetExactly(b: byte)
    ensures |ALPHABET| == 32
    ensures InAlphabet(b) <==> exists i :: 0 <= i < 32 && Is(b, ALPHABET[i])
  {
    hide ALPHABET;
    LetterIs(0);
    if InAlphabet(b) {
      var x := b as int;
      var i := if x < 65 then x - 26 else if x < 73 then x - 65 else if x < 79 then x - 66 else x - 67;
      LetterIs(i);
      assert Is(b, ALPHABET[i]);
    }
    if i :| 0 <= i < 32 && Is(b, ALPHABET[i]) {
      LetterIs(i);
    }
  }
}
