/** The wire format of requests and replies: the XDR encoder and decoder that
    rpcgen makes from StatmMessages.x (RFC 4506).  A character array is rpcgen's
    array of u_char, in which every element takes four bytes. */
module Xdr {
  import opened Bytes

  type UInt = n: nat | n < 0x1_0000_0000
  type Int = i: int | -0x8000_0000 <= i < 0x8000_0000
  type UHyper = n: nat | n < 0x1_0000_0000_0000_0000
  type Text = s: seq<byte> | |s| < 0x1_0000_0000 witness []
  type Hash = s: seq<byte> | |s| == 16 witness [0, 0, 0, 0, 0, 0, 0, 0, 0, 0, 0, 0, 0, 0, 0, 0]

  datatype StatVersion = StatVersion(major: UInt, minor: UInt)

  /** The list behind a StatError pointer. */
  datatype StatErrors = NoError | StatError(kind: Int, errorCode: Int, message: Text, next: StatErrors)

  datatype StatMessageHeader = StatMessageHeader(
    version: StatVersion, entity: Int, pid: UInt, index: UInt, hash: Hash, error: StatErrors)

  datatype StatParameter = StatParameter(flags: UInt, longVal: UHyper, stringVal: Text)

  type Parameters = s: seq<StatParameter> | |s| < 0x1_0000_0000 witness []

  datatype StatAdminRequest = StatAdminRequest(header: StatMessageHeader, command: UInt, parameters: Parameters)

  const UNKNOWN_CODE: Int := -1
  const ADMIN_REQUEST_CODE: Int := 1

  datatype StatRequest = UnknownRequest(header: StatMessageHeader) | AdminRequest(request: StatAdminRequest)

  datatype StatReply = UnknownReply(header: StatMessageHeader)

  // ---- encoding ----

  function PutUInt(n: UInt): (s: seq<byte>)
    ensures |s| == 4
  {
    BigEndian(n, 4)
  }

  function PutInt(i: Int): (s: seq<byte>)
    ensures |s| == 4
  {
    PutUInt(FromSigned32(i))
  }

  function PutUHyper(n: UHyper): (s: seq<byte>)
    ensures |s| == 8
  {
    BigEndian(n, 8)
  }

  function Padding(n: nat): (p: nat)
    ensures p < 4 && (n + p) % 4 == 0
  {
    (4 - n % 4) % 4
  }

  function Zeros(n: nat): (s: seq<byte>)
    ensures |s| == n
  {
    seq(n, _ => 0)
  }

  function PutText(s: Text): seq<byte> {
    PutUInt(|s|) + (s + Zeros(Padding(|s|)))
  }

  function PutChars(s: seq<byte>): seq<byte> {
    if s == [] then [] else PutUInt(s[0] as int) + PutChars(s[1..])
  }

  function PutErrors(e: StatErrors): seq<byte> {
    match e
    case NoError => PutUInt(0)
    case StatError(kind, code, message, next) =>
      PutUInt(1) + (PutInt(kind) + (PutInt(code) + (PutText(message) + PutErrors(next))))
  }

  function PutHeader(h: StatMessageHeader): seq<byte> {
    PutUInt(h.version.major) + (PutUInt(h.version.minor) + (PutInt(h.entity) + (PutUInt(h.pid) +
      (PutUInt(h.index) + (PutChars(h.hash) + PutErrors(h.error))))))
  }

  function PutParameter(p: StatParameter): seq<byte> {
    PutUInt(p.flags) + (PutUHyper(p.longVal) + PutText(p.stringVal))
  }

  function PutParameters(ps: seq<StatParameter>): seq<byte> {
    if ps == [] then [] else PutParameter(ps[0]) + PutParameters(ps[1..])
  }

  function PutAdminRequest(a: StatAdminRequest): seq<byte> {
    PutHeader(a.header) + (PutUInt(a.command) + (PutUInt(|a.parameters|) + PutParameters(a.parameters)))
  }

  function PutRequest(r: StatRequest): seq<byte> {
    match r
    case UnknownRequest(header) => PutInt(UNKNOWN_CODE) + PutHeader(header)
    case AdminRequest(request) => PutInt(ADMIN_REQUEST_CODE) + PutAdminRequest(request)
  }

  function PutReply(r: StatReply): seq<byte> {
    PutInt(UNKNOWN_CODE) + PutHeader(r.header)
  }

  // ---- decoding ----

  /** A decoded value and the bytes behind it; Bad where xdr returns FALSE. */
  datatype Got<+T> = Bad | Got(value: T, rest: seq<byte>) {
    predicate IsFailure() {
      Bad?
    }

    function PropagateFailure<U>(): Got<U>
      requires Bad?
    {
      Bad
    }

    function Extract(): (T, seq<byte>)
      requires Got?
    {
      (value, rest)
    }
  }

  function GetUInt(b: seq<byte>): (r: Got<UInt>)
    ensures r.Got? ==> |r.rest| + 4 == |b|
  {
    ValuesOf();
    if |b| < 4 then Bad else Got(FromBigEndian(b[..4]), b[4..])
  }

  function GetInt(b: seq<byte>): (r: Got<Int>)
    ensures r.Got? ==> |r.rest| + 4 == |b|
  {
    var (n, rest) :- GetUInt(b);
    Got(ToSigned32(n), rest)
  }

  function GetUHyper(b: seq<byte>): (r: Got<UHyper>)
    ensures r.Got? ==> |r.rest| + 8 == |b|
  {
    ValuesOf();
    if |b| < 8 then Bad else Got(FromBigEndian(b[..8]), b[8..])
  }

  /** The padding is skipped without being looked at. */
  function GetText(b: seq<byte>): (r: Got<Text>)
    ensures r.Got? ==> |r.rest| + 4 <= |b|
  {
    var (n, rest) :- GetUInt(b);
    if |rest| < n + Padding(n) then Bad else Got(rest[..n], rest[n + Padding(n)..])
  }

  /** xdr_u_char keeps the low byte of each word. */
  function GetChars(n: nat, b: seq<byte>): (r: Got<seq<byte>>)
    ensures r.Got? ==> |r.value| == n && |r.rest| <= |b|
  {
    if n == 0 then Got([], b)
    else
      var (c, rest) :- GetUInt(b);
      var (cs, rest') :- GetChars(n - 1, rest);
      Got([(c % 256) as byte] + cs, rest')
  }

  /** xdr_pointer takes every word but 0 for a pointer that is there. */
  function GetErrors(b: seq<byte>): (r: Got<StatErrors>)
    ensures r.Got? ==> |r.rest| < |b|
    decreases |b|
  {
    var (more, rest) :- GetUInt(b);
    if more == 0 then Got(NoError, rest)
    else
      var (kind, rest1) :- GetInt(rest);
      var (code, rest2) :- GetInt(rest1);
      var (message, rest3) :- GetText(rest2);
      var (next, rest4) :- GetErrors(rest3);
      Got(StatError(kind, code, message, next), rest4)
  }

  function GetHeader(b: seq<byte>): (r: Got<StatMessageHeader>) {
    var (major, b1) :- GetUInt(b);
    var (minor, b2) :- GetUInt(b1);
    var (entity, b3) :- GetInt(b2);
    var (pid, b4) :- GetUInt(b3);
    var (index, b5) :- GetUInt(b4);
    var (hash, b6) :- GetChars(16, b5);
    var (error, b7) :- GetErrors(b6);
    Got(StatMessageHeader(StatVersion(major, minor), entity, pid, index, hash, error), b7)
  }

  function GetParameter(b: seq<byte>): (r: Got<StatParameter>)
    ensures r.Got? ==> |r.rest| < |b|
  {
    var (flags, b1) :- GetUInt(b);
    var (longVal, b2) :- GetUHyper(b1);
    var (stringVal, b3) :- GetText(b2);
    Got(StatParameter(flags, longVal, stringVal), b3)
  }

  function GetParameters(n: nat, b: seq<byte>): (r: Got<seq<StatParameter>>)
    ensures r.Got? ==> |r.value| == n
  {
    if n == 0 then Got([], b)
    else
      var (p, rest) :- GetParameter(b);
      var (ps, rest') :- GetParameters(n - 1, rest);
      Got([p] + ps, rest')
  }

  function GetAdminRequest(b: seq<byte>): Got<StatAdminRequest> {
    var (header, b1) :- GetHeader(b);
    var (command, b2) :- GetUInt(b1);
    var (n, b3) :- GetUInt(b2);
    var (parameters, b4) :- GetParameters(n, b3);
    Got(StatAdminRequest(header, command, parameters), b4)
  }

  function GetRequest(b: seq<byte>): Got<StatRequest> {
    var (code, rest) :- GetInt(b);
    if code == UNKNOWN_CODE then
      var (header, rest') :- GetHeader(rest);
      Got(UnknownRequest(header), rest')
    else if code == ADMIN_REQUEST_CODE then
      var (request, rest') :- GetAdminRequest(rest);
      Got(AdminRequest(request), rest')
    else Bad
  }

  function GetReply(b: seq<byte>): Got<StatReply> {
    var (code, rest) :- GetInt(b);
    if code == UNKNOWN_CODE then
      var (header, rest') :- GetHeader(rest);
      Got(UnknownReply(header), rest')
    else Bad
  }

  // ---- decoding undoes encoding ----

  lemma HeadTail<T>(s: seq<T>)
    requires s != []
    ensures s == [s[0]] + s[1..]
  {
  }

  lemma UIntBack(n: UInt, rest: seq<byte>)
    ensures GetUInt(PutUInt(n) + rest) == Got(n, rest)
  {
    ValuesOf();
    BigEndianInverse(n, 4);
    Parts(PutUInt(n), rest);
  }

  lemma IntBack(i: Int, rest: seq<byte>)
    ensures GetInt(PutInt(i) + rest) == Got(i, rest)
  {
    UIntBack(FromSigned32(i), rest);
  }

  lemma UIntThen(n: UInt, tail: seq<byte>, rest: seq<byte>)
    ensures GetUInt((PutUInt(n) + tail) + rest) == Got(n, tail + rest)
  {
    Join(PutUInt(n), tail, rest);
    UIntBack(n, tail + rest);
  }

  lemma IntThen(i: Int, tail: seq<byte>, rest: seq<byte>)
    ensures GetInt((PutInt(i) + tail) + rest) == Got(i, tail + rest)
  {
    Join(PutInt(i), tail, rest);
    IntBack(i, tail + rest);
  }

  lemma UHyperBack(n: UHyper, rest: seq<byte>)
    ensures GetUHyper(PutUHyper(n) + rest) == Got(n, rest)
  {
    ValuesOf();
    BigEndianInverse(n, 8);
    Parts(PutUHyper(n), rest);
  }

  lemma TextBack(s: Text, rest: seq<byte>)
    ensures GetText(PutText(s) + rest) == Got(s, rest)
  {
    var body := s + Zeros(Padding(|s|));
    Join(PutUInt(|s|), body, rest);
    UIntBack(|s|, body + rest);
    Parts(body, rest);
    assert (body + rest)[..|s|] == s;
  }

  /** The decoder is not strict: the bytes that fill a text up may be any. */
  lemma AnyPadding(s: Text, pad: seq<byte>, rest: seq<byte>)
    requires |pad| == Padding(|s|)
    ensures GetText(PutUInt(|s|) + (s + (pad + rest))) == Got(s, rest)
  {
    UIntBack(|s|, s + (pad + rest));
    Parts(s, pad + rest);
    Parts(pad, rest);
    assert (s + (pad + rest))[|s| + |pad|..] == rest;
  }

  /** Any word but 0 stands for an error that follows. */
  lemma AnyPointer(n: UInt, b: seq<byte>)
    requires n != 0
    ensures GetErrors(PutUInt(n) + b) == GetErrors(PutUInt(1) + b)
  {
    UIntBack(n, b);
    UIntBack(1, b);
  }

  /** Of a character's word only the last byte counts. */
  lemma LastByte(n: UInt, rest: seq<byte>)
    ensures GetChars(1, PutUInt(n) + rest) == Got([(n % 256) as byte], rest)
  {
    UIntBack(n, rest);
    assert GetChars(0, rest) == Got([], rest) && [(n % 256) as byte] + [] == [(n % 256) as byte];
  }

  /** A request has one of two codes, a reply the one it can have; all others are
      refused. */
  lemma OnlyArms(code: Int, b: seq<byte>)
    ensures GetRequest(PutInt(code) + b).Got? ==> code == -1 || code == 1
    ensures GetReply(PutInt(code) + b).Got? ==> code == -1
  {
    IntBack(code, b);
  }

  lemma {:induction false} CharsBack(s: seq<byte>, rest: seq<byte>)
    ensures GetChars(|s|, PutChars(s) + rest) == Got(s, rest)
    decreases |s|
  {
    if s == [] {
      assert PutChars(s) + rest == rest;
    } else {
      Join(PutUInt(s[0] as int), PutChars(s[1..]), rest);
      UIntBack(s[0] as int, PutChars(s[1..]) + rest);
      CharsBack(s[1..], rest);
      assert s == [s[0]] + s[1..];
    }
  }

  lemma {:induction false} ErrorsBack(e: StatErrors, rest: seq<byte>)
    ensures GetErrors(PutErrors(e) + rest) == Got(e, rest)
    decreases e
  {
    match e
    case NoError => UIntBack(0, rest);
    case StatError(kind, code, message, next) =>
      var t4 := PutErrors(next);
      var t3 := PutText(message) + t4;
      var t2 := PutInt(code) + t3;
      var t1 := PutInt(kind) + t2;
      UIntThen(1, t1, rest);
      IntThen(kind, t2, rest);
      IntThen(code, t3, rest);
      Join(PutText(message), t4, rest);
      TextBack(message, t4 + rest);
      ErrorsBack(next, rest);
  }

  lemma HeaderBack(h: StatMessageHeader, rest: seq<byte>)
    ensures GetHeader(PutHeader(h) + rest) == Got(h, rest)
  {
    var t6 := PutErrors(h.error);
    var t5 := PutChars(h.hash) + t6;
    var t4 := PutUInt(h.index) + t5;
    var t3 := PutUInt(h.pid) + t4;
    var t2 := PutInt(h.entity) + t3;
    var t1 := PutUInt(h.version.minor) + t2;
    UIntThen(h.version.major, t1, rest);
    UIntThen(h.version.minor, t2, rest);
    IntThen(h.entity, t3, rest);
    UIntThen(h.pid, t4, rest);
    UIntThen(h.index, t5, rest);
    Join(PutChars(h.hash), t6, rest);
    CharsBack(h.hash, t6 + rest);
    ErrorsBack(h.error, rest);
  }

  lemma ParameterBack(p: StatParameter, rest: seq<byte>)
    ensures GetParameter(PutParameter(p) + rest) == Got(p, rest)
  {
    var t2 := PutText(p.stringVal);
    var t1 := PutUHyper(p.longVal) + t2;
    UIntThen(p.flags, t1, rest);
    Join(PutUHyper(p.longVal), t2, rest);
    UHyperBack(p.longVal, t2 + rest);
    TextBack(p.stringVal, rest);
  }

  lemma ParametersNext(p: StatParameter, ps: seq<StatParameter>, rest: seq<byte>)
    requires GetParameters(|ps|, PutParameters(ps) + rest) == Got(ps, rest)
    ensures GetParameters(|ps| + 1, (PutParameter(p) + PutParameters(ps)) + rest) == Got([p] + ps, rest)
  {
    Join(PutParameter(p), PutParameters(ps), rest);
    ParameterBack(p, PutParameters(ps) + rest);
  }

  lemma {:induction false} ParametersBack(ps: seq<StatParameter>, rest: seq<byte>)
    ensures GetParameters(|ps|, PutParameters(ps) + rest) == Got(ps, rest)
    decreases |ps|
  {
    if ps == [] {
      assert PutParameters(ps) + rest == rest;
    } else {
      ParametersBack(ps[1..], rest);
      ParametersNext(ps[0], ps[1..], rest);
      HeadTail(ps);
    }
  }

  lemma AdminRequestBack(a: StatAdminRequest, rest: seq<byte>)
    ensures GetAdminRequest(PutAdminRequest(a) + rest) == Got(a, rest)
  {
    var t3 := PutParameters(a.parameters);
    var t2 := PutUInt(|a.parameters|) + t3;
    var t1 := PutUInt(a.command) + t2;
    Join(PutHeader(a.header), t1, rest);
    HeaderBack(a.header, t1 + rest);
    UIntThen(a.command, t2, rest);
    UIntThen(|a.parameters|, t3, rest);
    ParametersBack(a.parameters, rest);
  }

  lemma UnknownRequestBack(h: StatMessageHeader, rest: seq<byte>)
    ensures GetRequest(PutRequest(UnknownRequest(h)) + rest) == Got(UnknownRequest(h), rest)
  {
    IntThen(UNKNOWN_CODE, PutHeader(h), rest);
    HeaderBack(h, rest);
  }

  lemma KnownRequestBack(a: StatAdminRequest, rest: seq<byte>)
    ensures GetRequest(PutRequest(AdminRequest(a)) + rest) == Got(AdminRequest(a), rest)
  {
    IntThen(ADMIN_REQUEST_CODE, PutAdminRequest(a), rest);
    AdminRequestBack(a, rest);
  }

  /** Every request comes back from the wire as it was sent, whatever follows. */
  lemma RequestBack(r: StatRequest, rest: seq<byte>)
    ensures GetRequest(PutRequest(r) + rest) == Got(r, rest)
  {
    match r
    case UnknownRequest(header) => UnknownRequestBack(header, rest);
    case AdminRequest(request) => KnownRequestBack(request, rest);
  }

  lemma ReplyBack(r: StatReply, rest: seq<byte>)
    ensures GetReply(PutReply(r) + rest) == Got(r, rest)
  {
    Join(PutInt(UNKNOWN_CODE), PutHeader(r.header), rest);
    IntBack(UNKNOWN_CODE, PutHeader(r.header) + rest);
    HeaderBack(r.header, rest);
  }

  // ---- sizes ----

  function TextSize(s: seq<byte>): nat {
    4 + |s| + Padding(|s|)
  }

  function ErrorsSize(e: StatErrors): nat {
    if e.NoError? then 4 else 12 + TextSize(e.message) + ErrorsSize(e.next)
  }

  function ParametersSize(ps: seq<StatParameter>): nat {
    if ps == [] then 0 else 12 + TextSize(ps[0].stringVal) + ParametersSize(ps[1..])
  }

  function HeaderSize(h: StatMessageHeader): nat {
    20 + 4 * 16 + ErrorsSize(h.error)
  }

  /** xdr_sizeof. */
  function RequestSize(r: StatRequest): nat {
    match r
    case UnknownRequest(header) => 4 + HeaderSize(header)
    case AdminRequest(a) => 12 + HeaderSize(a.header) + ParametersSize(a.parameters)
  }

  function ReplySize(r: StatReply): nat {
    4 + HeaderSize(r.header)
  }

  lemma {:induction false} CharsSized(s: seq<byte>)
    ensures |PutChars(s)| == 4 * |s|
    decreases |s|
  {
    if s != [] {
      CharsSized(s[1..]);
    }
  }

  lemma Total(parts: seq<byte>, a: seq<byte>, b: seq<byte>, c: seq<byte>, d: seq<byte>, e: seq<byte>)
    requires parts == a + (b + (c + (d + e)))
    ensures |parts| == |a| + |b| + |c| + |d| + |e|
  {
  }

  lemma TextSized(s: Text)
    ensures |PutText(s)| == TextSize(s)
  {
  }

  lemma {:induction false} ErrorsSized(e: StatErrors)
    ensures |PutErrors(e)| == ErrorsSize(e)
    decreases e
  {
    match e
    case NoError =>
    case StatError(kind, code, message, next) =>
      TextSized(message);
      ErrorsSized(next);
      Total(PutErrors(e), PutUInt(1), PutInt(kind), PutInt(code), PutText(message), PutErrors(next));
  }

  lemma SumAligned(a: nat, b: nat)
    requires a % 4 == 0 && b % 4 == 0
    ensures (a + b) % 4 == 0
  {
  }

  lemma TextAligned(s: seq<byte>)
    ensures TextSize(s) % 4 == 0
  {
  }

  lemma {:induction false} ErrorsAligned(e: StatErrors)
    ensures ErrorsSize(e) % 4 == 0
    decreases e
  {
    if e.StatError? {
      ErrorsAligned(e.next);
      TextAligned(e.message);
      SumAligned(12, TextSize(e.message));
      SumAligned(12 + TextSize(e.message), ErrorsSize(e.next));
    }
  }

  lemma HeaderSized(h: StatMessageHeader)
    ensures |PutHeader(h)| == HeaderSize(h)
  {
    CharsSized(h.hash);
    ErrorsSized(h.error);
    var tail := PutUInt(h.index) + (PutChars(h.hash) + PutErrors(h.error));
    Total(PutHeader(h), PutUInt(h.version.major), PutUInt(h.version.minor), PutInt(h.entity), PutUInt(h.pid), tail);
    assert |tail| == 4 + (64 + ErrorsSize(h.error));
  }

  lemma {:induction false} ParametersSized(ps: seq<StatParameter>)
    ensures |PutParameters(ps)| == ParametersSize(ps)
    decreases |ps|
  {
    if ps != [] {
      var p := ps[0];
      TextSized(p.stringVal);
      ParametersSized(ps[1..]);
      assert |PutParameter(p)| == 4 + (8 + |PutText(p.stringVal)|);
    }
  }

  lemma {:induction false} ParametersAligned(ps: seq<StatParameter>)
    ensures ParametersSize(ps) % 4 == 0
    decreases |ps|
  {
    if ps != [] {
      ParametersAligned(ps[1..]);
      TextAligned(ps[0].stringVal);
      SumAligned(12, TextSize(ps[0].stringVal));
      SumAligned(12 + TextSize(ps[0].stringVal), ParametersSize(ps[1..]));
    }
  }

  lemma AdminRequestSized(a: StatAdminRequest)
    ensures |PutAdminRequest(a)| == 8 + HeaderSize(a.header) + ParametersSize(a.parameters)
  {
    HeaderSized(a.header);
    ParametersSized(a.parameters);
  }

  lemma HeaderAligned(h: StatMessageHeader)
    ensures HeaderSize(h) % 4 == 0
  {
    ErrorsAligned(h.error);
    SumAligned(84, ErrorsSize(h.error));
  }

  lemma RequestAligned(r: StatRequest)
    ensures RequestSize(r) % 4 == 0
  {
    match r
    case UnknownRequest(header) =>
      HeaderAligned(header);
      SumAligned(4, HeaderSize(header));
    case AdminRequest(a) =>
      HeaderAligned(a.header);
      ParametersAligned(a.parameters);
      SumAligned(12, HeaderSize(a.header));
      SumAligned(12 + HeaderSize(a.header), ParametersSize(a.parameters));
  }

  /** The encoding has the size that was computed for it, a multiple of 4. */
  lemma RequestSized(r: StatRequest)
    ensures |PutRequest(r)| == RequestSize(r) && RequestSize(r) % 4 == 0
  {
    RequestAligned(r);
    match r
    case UnknownRequest(header) =>
      HeaderSized(header);
    case AdminRequest(a) =>
      AdminRequestSized(a);
  }

  lemma ReplyAligned(r: StatReply)
    ensures ReplySize(r) % 4 == 0
  {
    HeaderAligned(r.header);
    SumAligned(4, HeaderSize(r.header));
  }

  lemma ReplySized(r: StatReply)
    ensures |PutReply(r)| == ReplySize(r) && ReplySize(r) % 4 == 0
  {
    ReplyAligned(r);
    HeaderSized(r.header);
  }

  // ---- what is on the wire ----

  /** A word is four bytes, the most significant one first. */
  lemma WordLayout(n: UInt)
    ensures PutUInt(n) == [(n / 0x100_0000) as byte, (n / 0x1_0000 % 256) as byte, (n / 0x100 % 256) as byte,
                           (n % 256) as byte]
  {
    var a, b, c := n / 0x100, n / 0x1_0000, n / 0x100_0000;
    assert a / 256 == b && b / 256 == c && c / 256 == 0;
    assert BigEndian(c, 1) == BigEndian(0, 0) + [c as byte];
    assert BigEndian(b, 2) == BigEndian(c, 1) + [(b % 256) as byte];
    assert BigEndian(a, 3) == BigEndian(b, 2) + [(a % 256) as byte];
    assert BigEndian(n, 4) == BigEndian(a, 3) + [(n % 256) as byte];
  }

  /** A text is its length, its bytes and the least number of zeros that lead to
      a multiple of four. */
  lemma TextLayout(s: Text)
    ensures 4 + |s| <= |PutText(s)| < 4 + |s| + 4 && |PutText(s)| % 4 == 0
    ensures PutText(s)[..4] == PutUInt(|s|) && PutText(s)[4..4 + |s|] == s
    ensures forall i | 4 + |s| <= i < |PutText(s)| :: PutText(s)[i] == 0
  {
    Parts(PutUInt(|s|), s + Zeros(Padding(|s|)));
    TextSized(s);
  }

  lemma FourParts(w0: seq<byte>, w1: seq<byte>, w2: seq<byte>, t: seq<byte>, tail: seq<byte>)
    requires |w0| == |w1| == |w2| == 4
    ensures var b, n := w0 + (w1 + (w2 + (t + tail))), 12 + |t|;
      b[..4] == w0 && b[4..8] == w1 && b[8..12] == w2 && b[12..n] == t && b[n..] == tail
  {
  }

  /** Where the parts of an error stand: a word 1, its kind, its code, its text,
      and behind it the next one. */
  lemma ErrorLayout(e: StatErrors)
    requires e.StatError?
    ensures var b, n := PutErrors(e), 12 + TextSize(e.message);
      && |b| >= n
      && b[..4] == PutUInt(1) && b[4..8] == PutInt(e.kind) && b[8..12] == PutInt(e.errorCode)
      && b[12..n] == PutText(e.message) && b[n..] == PutErrors(e.next)
  {
    TextSized(e.message);
    FourParts(PutUInt(1), PutInt(e.kind), PutInt(e.errorCode), PutText(e.message), PutErrors(e.next));
  }

  predicate EndsZero(b: seq<byte>) {
    |b| >= 4 && b[|b| - 4..] == PutUInt(0)
  }

  lemma SameEnd(b: seq<byte>, n: nat, tail: seq<byte>)
    requires n <= |b| && b[n..] == tail && EndsZero(tail)
    ensures EndsZero(b)
  {
    assert b[|b| - 4..] == tail[|tail| - 4..];
  }

  lemma EndsStill(e: StatErrors)
    requires e.StatError? && EndsZero(PutErrors(e.next))
    ensures EndsZero(PutErrors(e))
  {
    ErrorLayout(e);
    SameEnd(PutErrors(e), 12 + TextSize(e.message), PutErrors(e.next));
  }

  /** Every error list, however long, ends with a word 0. */
  lemma {:induction false} ErrorsEnd(e: StatErrors)
    ensures |PutErrors(e)| >= 4 && PutErrors(e)[|PutErrors(e)| - 4..] == PutUInt(0)
    decreases e
  {
    if e.StatError? {
      ErrorsEnd(e.next);
      EndsStill(e);
    } else {
      assert PutUInt(0)[0..] == PutUInt(0);
    }
  }

  lemma Words(w0: seq<byte>, w1: seq<byte>, w2: seq<byte>, w3: seq<byte>, w4: seq<byte>, tail: seq<byte>)
    requires |w0| == |w1| == |w2| == |w3| == |w4| == 4
    ensures var b := w0 + (w1 + (w2 + (w3 + (w4 + tail))));
      b[..4] == w0 && b[4..8] == w1 && b[8..12] == w2 && b[12..16] == w3 && b[16..20] == w4 && b[20..] == tail
  {
  }

  /** The fields of a header stand in the order of their declaration. */
  lemma HeaderLayout(h: StatMessageHeader)
    ensures |PutHeader(h)| >= 84
    ensures PutHeader(h)[..4] == PutUInt(h.version.major) && PutHeader(h)[4..8] == PutUInt(h.version.minor)
    ensures PutHeader(h)[8..12] == PutInt(h.entity)
    ensures PutHeader(h)[12..16] == PutUInt(h.pid) && PutHeader(h)[16..20] == PutUInt(h.index)
    ensures PutHeader(h)[20..] == PutChars(h.hash) + PutErrors(h.error)
  {
    CharsSized(h.hash);
    Words(PutUInt(h.version.major), PutUInt(h.version.minor), PutInt(h.entity), PutUInt(h.pid), PutUInt(h.index),
          PutChars(h.hash) + PutErrors(h.error));
  }

  /** Where the parts of an administrative request stand: its arm's word, its
      header, its command, the number of its parameters and these. */
  lemma RequestLayout(a: StatAdminRequest)
    ensures var b, n := PutRequest(AdminRequest(a)), 4 + HeaderSize(a.header);
      && |b| >= n + 8
      && b[..4] == PutInt(ADMIN_REQUEST_CODE) && b[4..n] == PutHeader(a.header)
      && b[n..n + 4] == PutUInt(a.command) && b[n + 4..n + 8] == PutUInt(|a.parameters|)
      && b[n + 8..] == PutParameters(a.parameters)
  {
    HeaderSized(a.header);
    FiveParts(PutInt(ADMIN_REQUEST_CODE), PutHeader(a.header), PutUInt(a.command), PutUInt(|a.parameters|),
              PutParameters(a.parameters));
  }

  lemma FiveParts(w: seq<byte>, h: seq<byte>, c: seq<byte>, k: seq<byte>, tail: seq<byte>)
    requires |w| == |c| == |k| == 4
    ensures var b, n := w + (h + (c + (k + tail))), 4 + |h|;
      b[..4] == w && b[4..n] == h && b[n..n + 4] == c && b[n + 4..n + 8] == k && b[n + 8..] == tail
  {
  }

  lemma UnknownLayout(h: StatMessageHeader)
    ensures |PutRequest(UnknownRequest(h))| == 4 + HeaderSize(h)
    ensures PutRequest(UnknownRequest(h))[..4] == PutInt(UNKNOWN_CODE)
    ensures PutRequest(UnknownRequest(h))[4..] == PutHeader(h)
  {
    HeaderSized(h);
    Parts(PutInt(UNKNOWN_CODE), PutHeader(h));
  }

  /** The codes of the arms, as bytes. */
  lemma CodeBytes()
    ensures PutInt(UNKNOWN_CODE) == [255, 255, 255, 255] && PutInt(ADMIN_REQUEST_CODE) == [0, 0, 0, 1]
  {
    WordLayout(0xFFFF_FFFF);
    WordLayout(1);
  }

  lemma Inside(b: seq<byte>, n: nat, p: seq<byte>)
    requires 4 <= n <= |b| && b[4..n] == p && |p| >= 20
    ensures b[4..8] == p[..4] && b[8..12] == p[4..8] && b[12..16] == p[8..12]
    ensures b[16..20] == p[12..16] && b[20..24] == p[16..20]
  {
    assert forall i | 0 <= i < |p| :: b[4 + i] == p[i];
  }

  function HeaderOf(r: StatRequest): StatMessageHeader {
    match r
    case UnknownRequest(header) => header
    case AdminRequest(request) => request.header
  }

  /** Whatever the request, its first word tells the arm, and the header's words
      stand at the same places behind it. */
  lemma EitherArm(r: StatRequest)
    ensures var b, h := PutRequest(r), HeaderOf(r);
      && |b| >= 24 && b[..4] == (if r.AdminRequest? then [0, 0, 0, 1] else [255, 255, 255, 255])
      && b[4..8] == PutUInt(h.version.major) && b[8..12] == PutUInt(h.version.minor) && b[12..16] == PutInt(h.entity)
      && b[16..20] == PutUInt(h.pid) && b[20..24] == PutUInt(h.index)
  {
    var b, h := PutRequest(r), HeaderOf(r);
    var n := 4 + HeaderSize(h);
    CodeBytes();
    if r.AdminRequest? {
      RequestLayout(r.request);
    } else {
      UnknownLayout(r.header);
    }
    assert b[4..n] == PutHeader(h);
    HeaderSized(h);
    HeaderLayout(h);
    Inside(b, n, PutHeader(h));
  }

  /** The only arm that a reply has, and its header. */
  lemma ReplyLayout(r: StatReply)
    ensures var b, h := PutReply(r), r.header;
      && |b| >= 24 && b[..4] == [255, 255, 255, 255]
      && b[4..8] == PutUInt(h.version.major) && b[8..12] == PutUInt(h.version.minor) && b[12..16] == PutInt(h.entity)
      && b[16..20] == PutUInt(h.pid) && b[20..24] == PutUInt(h.index)
      && b[24..] == PutChars(h.hash) + PutErrors(h.error)
  {
    var b, h := PutReply(r), r.header;
    CodeBytes();
    Parts(PutInt(UNKNOWN_CODE), PutHeader(h));
    HeaderLayout(h);
    assert b[4..|b|] == PutHeader(h);
    Inside(b, |b|, PutHeader(h));
    assert b[24..] == PutHeader(h)[20..];
  }

  /** Each character has a word of its own. */
  lemma {:induction false} CharsLayout(s: seq<byte>, i: nat)
    requires i < |s|
    ensures |PutChars(s)| == 4 * |s| && PutChars(s)[4 * i..4 * i + 4] == [0, 0, 0, s[i]]
    decreases |s|
  {
    var first, rest := PutUInt(s[0] as int), PutChars(s[1..]);
    CharsSized(s[1..]);
    if i == 0 {
      WordLayout(s[0] as int);
      Parts(first, rest);
    } else {
      CharsLayout(s[1..], i - 1);
      Behind(first, rest, 4 * (i - 1));
    }
  }

  lemma Behind(first: seq<byte>, rest: seq<byte>, i: nat)
    requires |first| == 4 && i + 4 <= |rest|
    ensures (first + rest)[i + 4..i + 8] == rest[i..i + 4]
  {
  }

  /** A number of 64 bits is eight bytes, the most significant one first. */
  lemma HyperLayout(n: UHyper)
    ensures PutUHyper(n) == [(n / 0x100_0000_0000_0000) as byte, (n / 0x1_0000_0000_0000 % 256) as byte,
                             (n / 0x100_0000_0000 % 256) as byte, (n / 0x1_0000_0000 % 256) as byte,
                             (n / 0x100_0000 % 256) as byte, (n / 0x1_0000 % 256) as byte,
                             (n / 0x100 % 256) as byte, (n % 256) as byte]
  {
    var a, b, c, upper := n / 0x100, n / 0x1_0000, n / 0x100_0000, n / 0x1_0000_0000;
    assert a / 256 == b && b / 256 == c && c / 256 == upper;
    WordLayout(upper);
    assert BigEndian(c, 5) == BigEndian(upper, 4) + [(c % 256) as byte];
    assert BigEndian(b, 6) == BigEndian(c, 5) + [(b % 256) as byte];
    assert BigEndian(a, 7) == BigEndian(b, 6) + [(a % 256) as byte];
    assert BigEndian(n, 8) == BigEndian(a, 7) + [(n % 256) as byte];
    UpperBytes(n);
  }

  lemma UpperBytes(n: nat)
    ensures n / 0x1_0000_0000 / 0x100_0000 == n / 0x100_0000_0000_0000
    ensures n / 0x1_0000_0000 / 0x1_0000 == n / 0x1_0000_0000_0000
    ensures n / 0x1_0000_0000 / 0x100 == n / 0x100_0000_0000
  {
  }

  /** Parameters follow one another. */
  lemma {:induction false} ParametersLayout(a: seq<StatParameter>, b: seq<StatParameter>)
    ensures PutParameters(a + b) == PutParameters(a) + PutParameters(b)
    decreases |a|
  {
    if a == [] {
      assert a + b == b;
    } else {
      assert (a + b)[0] == a[0] && (a + b)[1..] == a[1..] + b;
      ParametersLayout(a[1..], b);
      Join(PutParameter(a[0]), PutParameters(a[1..]), PutParameters(b));
    }
  }

  lemma OneParameter(p: StatParameter)
    ensures PutParameters([p]) == PutParameter(p)
  {
    assert [p][1..] == [];
  }

  lemma ParameterLayout(p: StatParameter)
    ensures |PutParameter(p)| >= 12
    ensures PutParameter(p)[..4] == PutUInt(p.flags) && PutParameter(p)[4..12] == PutUHyper(p.longVal)
    ensures PutParameter(p)[12..] == PutText(p.stringVal)
  {
    Parts(PutUInt(p.flags), PutUHyper(p.longVal) + PutText(p.stringVal));
    Parts(PutUHyper(p.longVal), PutText(p.stringVal));
  }

  // ---- the decoder reads a prefix ----

  lemma UIntMore(b: seq<byte>, x: seq<byte>)
    requires GetUInt(b).Got?
    ensures GetUInt(b + x) == Got(GetUInt(b).value, GetUInt(b).rest + x)
  {
    assert (b + x)[..4] == b[..4] && (b + x)[4..] == b[4..] + x;
  }

  lemma UHyperMore(b: seq<byte>, x: seq<byte>)
    requires GetUHyper(b).Got?
    ensures GetUHyper(b + x) == Got(GetUHyper(b).value, GetUHyper(b).rest + x)
  {
    assert (b + x)[..8] == b[..8] && (b + x)[8..] == b[8..] + x;
  }

  lemma TextMore(b: seq<byte>, x: seq<byte>)
    requires GetText(b).Got?
    ensures GetText(b + x) == Got(GetText(b).value, GetText(b).rest + x)
  {
    UIntMore(b, x);
    var n, rest := GetUInt(b).value, GetUInt(b).rest;
    assert (rest + x)[..n] == rest[..n] && (rest + x)[n + Padding(n)..] == rest[n + Padding(n)..] + x;
  }

  lemma {:induction false} CharsMore(n: nat, b: seq<byte>, x: seq<byte>)
    requires GetChars(n, b).Got?
    ensures GetChars(n, b + x) == Got(GetChars(n, b).value, GetChars(n, b).rest + x)
    decreases n
  {
    if n > 0 {
      UIntMore(b, x);
      CharsMore(n - 1, GetUInt(b).rest, x);
    }
  }

  lemma {:induction false} ErrorsMore(b: seq<byte>, x: seq<byte>)
    requires GetErrors(b).Got?
    ensures GetErrors(b + x) == Got(GetErrors(b).value, GetErrors(b).rest + x)
    decreases |b|
  {
    UIntMore(b, x);
    var b0 := GetUInt(b).rest;
    if GetUInt(b).value != 0 {
      UIntMore(b0, x);
      var b1 := GetInt(b0).rest;
      UIntMore(b1, x);
      var b2 := GetInt(b1).rest;
      TextMore(b2, x);
      ErrorsMore(GetText(b2).rest, x);
    }
  }

  lemma HeaderMore(b: seq<byte>, x: seq<byte>)
    requires GetHeader(b).Got?
    ensures GetHeader(b + x) == Got(GetHeader(b).value, GetHeader(b).rest + x)
  {
    UIntMore(b, x);
    var b1 := GetUInt(b).rest;
    UIntMore(b1, x);
    var b2 := GetUInt(b1).rest;
    UIntMore(b2, x);
    var b3 := GetInt(b2).rest;
    UIntMore(b3, x);
    var b4 := GetUInt(b3).rest;
    UIntMore(b4, x);
    var b5 := GetUInt(b4).rest;
    CharsMore(16, b5, x);
    ErrorsMore(GetChars(16, b5).rest, x);
  }

  lemma ParameterMore(b: seq<byte>, x: seq<byte>)
    requires GetParameter(b).Got?
    ensures GetParameter(b + x) == Got(GetParameter(b).value, GetParameter(b).rest + x)
  {
    UIntMore(b, x);
    UHyperMore(GetUInt(b).rest, x);
    TextMore(GetUHyper(GetUInt(b).rest).rest, x);
  }

  lemma {:induction false} ParametersMore(n: nat, b: seq<byte>, x: seq<byte>)
    requires GetParameters(n, b).Got?
    ensures GetParameters(n, b + x) == Got(GetParameters(n, b).value, GetParameters(n, b).rest + x)
    decreases n
  {
    if n > 0 {
      ParameterMore(b, x);
      ParametersMore(n - 1, GetParameter(b).rest, x);
    }
  }

  lemma AdminRequestMore(b: seq<byte>, x: seq<byte>)
    requires GetAdminRequest(b).Got?
    ensures GetAdminRequest(b + x) == Got(GetAdminRequest(b).value, GetAdminRequest(b).rest + x)
  {
    HeaderMore(b, x);
    var b1 := GetHeader(b).rest;
    UIntMore(b1, x);
    var b2 := GetUInt(b1).rest;
    UIntMore(b2, x);
    ParametersMore(GetUInt(b2).value, GetUInt(b2).rest, x);
  }

  /** What decodes, decodes in the same way with more bytes behind it. */
  lemma RequestMore(b: seq<byte>, x: seq<byte>)
    requires GetRequest(b).Got?
    ensures GetRequest(b + x) == Got(GetRequest(b).value, GetRequest(b).rest + x)
  {
    UIntMore(b, x);
    var b0 := GetInt(b).rest;
    if GetInt(b).value == UNKNOWN_CODE {
      HeaderMore(b0, x);
    } else {
      AdminRequestMore(b0, x);
    }
  }

  /** A request cut short never decodes, so no request is taken for the
      beginning of another. */
  lemma CutRequestIsBad(r: StatRequest, n: nat)
    requires n < |PutRequest(r)|
    ensures GetRequest(PutRequest(r)[..n]) == Bad
  {
    var whole := PutRequest(r);
    Halves(whole, n);
    assert whole + [] == whole;
    RequestBack(r, []);
    if GetRequest(whole[..n]).Got? {
      RequestMore(whole[..n], whole[n..]);
    }
  }
}
