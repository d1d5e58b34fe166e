/** The binary file of statistical records and what a collection makes of it. */
module RecordFiles {
  import opened Bytes
  import opened Xdr

  const COUNTERS: nat := 31
  const FIELD: nat := 132
  const NAME: nat := 28
  const NAMED: nat := 0x1_0000 // 1 << 16

  /** A group, a type and its counters; a group with the flag has a name, too. */
  datatype Record = Record(group: Int, kind: Int, counters: seq<Int>, name: seq<byte>)

  predicate Flagged(group: Int) {
    FromSigned32(group) / NAMED % 2 == 1
  }

  /** The flag is bit 16. */
  lemma FlagIsBit16(group: Int)
    ensures 0 <= group < 0x1_0000 ==> !Flagged(group)
    ensures group + 0x1_0000 < 0x8000_0000 ==> (Flagged(group + 0x1_0000) <==> !Flagged(group))
  {
  }

  predicate WellFormed(r: Record) {
    |r.counters| == COUNTERS && |r.name| == if Flagged(r.group) then NAME else 0
  }

  /** The last byte of a name is always read as 0. */
  function Ended(r: Record): (e: Record)
    requires WellFormed(r)
    ensures WellFormed(e)
    ensures e == r <==> (Flagged(r.group) ==> r.name[NAME - 1] == 0)
  {
    if Flagged(r.group) then
      assert r.name == r.name[..NAME - 1] + [r.name[NAME - 1]];
      r.(name := r.name[..NAME - 1] + [0])
    else r
  }

  function EmptyRecord(): (r: Record)
    ensures WellFormed(r)
  {
    Record(0, 0, seq(COUNTERS, _ => 0), [])
  }

  // ---- writing ----

  ghost function PutInts(s: seq<Int>): (b: seq<byte>)
    ensures |b| == 4 * |s|
  {
    if s == [] then [] else PutInt(s[0]) + PutInts(s[1..])
  }

  ghost function PutField(r: Record): (b: seq<byte>)
    requires WellFormed(r)
    ensures |b| == FIELD
  {
    PutInt(r.group) + (PutInt(r.kind) + PutInts(r.counters))
  }

  ghost function Put(r: Record): (b: seq<byte>)
    requires WellFormed(r)
    ensures |b| == FIELD + |r.name|
  {
    PutField(r) + r.name
  }

  ghost predicate AllWellFormed(rs: seq<Record>) {
    forall r | r in rs :: WellFormed(r)
  }

  ghost function PutAll(rs: seq<Record>): seq<byte>
    requires AllWellFormed(rs)
  {
    if rs == [] then [] else Put(rs[0]) + PutAll(rs[1..])
  }

  // ---- reading ----

  function IntOf(b: seq<byte>): Int
    requires |b| == 4
  {
    ValuesOf();
    ToSigned32(FromBigEndian(b))
  }

  function IntsOf(b: seq<byte>, n: nat): (s: seq<Int>)
    requires |b| == 4 * n
    ensures |s| == n
  {
    if n == 0 then [] else [IntOf(b[..4])] + IntsOf(b[4..], n - 1)
  }

  function FieldOf(b: seq<byte>): (r: Record)
    requires |b| == FIELD
    ensures |r.counters| == COUNTERS && r.name == []
  {
    Record(IntOf(b[..4]), IntOf(b[4..8]), IntsOf(b[8..], COUNTERS), [])
  }

  /** The record in front of a file, and how long it is; Cut where the file ends
      before the record does. */
  datatype Front = Cut | Whole(record: Record, size: nat)

  function FrontOf(b: seq<byte>): (f: Front)
    ensures f.Whole? ==> FIELD <= f.size <= |b| && WellFormed(f.record)
  {
    if |b| < FIELD then Cut else WithName(FieldOf(b[..FIELD]), b[FIELD..])
  }

  function WithName(field: Record, rest: seq<byte>): (f: Front)
    requires |field.counters| == COUNTERS && field.name == []
    ensures f.Whole? ==> FIELD <= f.size <= FIELD + |rest| && WellFormed(f.record)
  {
    if !Flagged(field.group) then Whole(field, FIELD)
    else if |rest| < NAME then Cut
    else Whole(field.(name := rest[..NAME - 1] + [0]), FIELD + NAME)
  }

  function Records(b: seq<byte>): (rs: seq<Record>)
    ensures forall r | r in rs :: WellFormed(r)
    decreases |b|
  {
    match FrontOf(b)
    case Cut => []
    case Whole(record, size) => [record] + Records(b[size..])
  }

  // ---- reading undoes writing ----

  lemma IntOfBack(i: Int)
    ensures IntOf(PutInt(i)) == i
  {
    ValuesOf();
    BigEndianInverse(FromSigned32(i), 4);
  }

  lemma {:induction false} IntsOfBack(s: seq<Int>)
    ensures IntsOf(PutInts(s), |s|) == s
    decreases |s|
  {
    if s != [] {
      var b := PutInts(s);
      assert b[..4] == PutInt(s[0]) && b[4..] == PutInts(s[1..]);
      IntOfBack(s[0]);
      IntsOfBack(s[1..]);
    }
  }

  lemma FieldOfBack(r: Record)
    requires WellFormed(r)
    ensures FieldOf(PutField(r)) == r.(name := [])
  {
    var b := PutField(r);
    assert b[..4] == PutInt(r.group) && b[4..8] == PutInt(r.kind) && b[8..] == PutInts(r.counters);
    IntOfBack(r.group);
    IntOfBack(r.kind);
    IntsOfBack(r.counters);
  }

  lemma FrontOfBack(r: Record, rest: seq<byte>)
    requires WellFormed(r)
    ensures FrontOf(Put(r) + rest) == Whole(Ended(r), |Put(r)|)
  {
    Join(PutField(r), r.name, rest);
    Parts(PutField(r), r.name + rest);
    FieldOfBack(r);
    assert Flagged(r.group) ==> (r.name + rest)[..NAME - 1] == r.name[..NAME - 1];
  }

  lemma RecordsFront(r: Record, rest: seq<byte>)
    requires WellFormed(r)
    ensures Records(Put(r) + rest) == [Ended(r)] + Records(rest)
  {
    FrontOfBack(r, rest);
    Parts(Put(r), rest);
  }

  /** Less than a record is nothing. */
  lemma PieceIsCut(r: Record, piece: seq<byte>)
    requires WellFormed(r) && piece < Put(r)
    ensures Records(piece) == []
  {
    if |piece| >= FIELD {
      assert piece[..FIELD] == PutField(r);
      FieldOfBack(r);
    }
  }

  ghost function AllEnded(rs: seq<Record>): (es: seq<Record>)
    requires AllWellFormed(rs)
    ensures |es| == |rs| && forall i | 0 <= i < |rs| :: WellFormed(rs[i]) && es[i] == Ended(rs[i])
  {
    if rs == [] then [] else [Ended(rs[0])] + AllEnded(rs[1..])
  }

  lemma {:induction false} RecordsOf(rs: seq<Record>, piece: seq<byte>, next: Record)
    requires AllWellFormed(rs) && WellFormed(next) && piece < Put(next)
    ensures Records(PutAll(rs) + piece) == AllEnded(rs)
    decreases |rs|
  {
    if rs == [] {
      assert PutAll(rs) + piece == piece;
      PieceIsCut(next, piece);
    } else {
      Join(Put(rs[0]), PutAll(rs[1..]), piece);
      RecordsFront(rs[0], PutAll(rs[1..]) + piece);
      RecordsOf(rs[1..], piece, next);
    }
  }

  predicate NameEnds(r: Record) {
    Flagged(r.group) ==> |r.name| == NAME && r.name[NAME - 1] == 0
  }

  lemma {:induction false} AllEndedIff(rs: seq<Record>)
    requires AllWellFormed(rs)
    ensures AllEnded(rs) == rs <==> forall r | r in rs :: NameEnds(r)
    decreases |rs|
  {
    if rs != [] {
      var first, rest := rs[0], rs[1..];
      assert rs == [first] + rest;
      assert WellFormed(first);
      AllEndedIff(rest);
      assert AllEnded(rs) == rs <==> Ended(first) == first && AllEnded(rest) == rest;
    }
  }

  /** A file comes back as it was written exactly when every name in it ends
      with a 0 byte. */
  lemma FileBackIff(rs: seq<Record>)
    requires AllWellFormed(rs)
    ensures Records(PutAll(rs)) == rs <==> forall r | r in rs :: NameEnds(r)
  {
    RecordsOf(rs, [], EmptyRecord());
    assert PutAll(rs) + [] == PutAll(rs);
    AllEndedIff(rs);
  }

  lemma PutFirst(rs: seq<Record>, k: nat)
    requires AllWellFormed(rs) && k < |rs|
    ensures AllWellFormed(rs[..k + 1]) && AllWellFormed(rs[1..][..k])
    ensures PutAll(rs[..k + 1]) == Put(rs[0]) + PutAll(rs[1..][..k])
  {
    assert rs[..k + 1][1..] == rs[1..][..k];
  }

  lemma {:induction false} CutAt(rs: seq<Record>, p: seq<byte>) returns (k: nat, piece: seq<byte>)
    requires AllWellFormed(rs) && p <= PutAll(rs)
    ensures k <= |rs| && AllWellFormed(rs[..k]) && p == PutAll(rs[..k]) + piece
    ensures k == |rs| ==> piece == []
    ensures k < |rs| ==> WellFormed(rs[k]) && piece < Put(rs[k])
    decreases |rs|
  {
    if rs == [] {
      return 0, [];
    }
    var first := Put(rs[0]);
    CutPair(p, first, PutAll(rs[1..]));
    if |p| < |first| {
      return 0, p;
    }
    k, piece := CutAt(rs[1..], p[|first|..]);
    PutFirst(rs, k);
    Join(first, PutAll(rs[1..][..k]), piece);
    k := k + 1;
  }

  /** Of a file that ends early: every record that is whole, and nothing of the
      one that is not. */
  lemma CutFile(rs: seq<Record>, p: seq<byte>) returns (k: nat, piece: seq<byte>)
    requires AllWellFormed(rs) && p <= PutAll(rs)
    ensures k <= |rs| && AllWellFormed(rs[..k]) && p == PutAll(rs[..k]) + piece
    ensures k == |rs| ==> piece == []
    ensures k < |rs| ==> WellFormed(rs[k]) && piece < Put(rs[k])
    ensures Records(p) == AllEnded(rs[..k])
  {
    k, piece := CutAt(rs, p);
    RecordsOf(rs[..k], piece, if k < |rs| then rs[k] else EmptyRecord());
  }

  // ---- what a collection writes ----

  /** The counters' names, by type and number; a type's own name has the number
      (u_int) -1. */
  type Names = map<(nat, nat), string>

  const TYPE_NAME: nat := 0xFFFF_FFFF

  function Key(kind: Int, number: nat): (nat, nat) {
    (FromSigned32(kind), number)
  }

  datatype Label<T> = Number(number: int) | Text(text: T)

  /** One measInfo element: its id, its object, its names and its values. */
  datatype Info = Info(id: Label<string>, measObj: Label<seq<byte>>, types: seq<string>, results: seq<Int>)

  function TypeLabel(names: Names, kind: Int): (l: Label<string>)
    ensures l.Text? <==> (FromSigned32(kind), TYPE_NAME) in names
    ensures if l.Text? then l.text == names[(FromSigned32(kind), TYPE_NAME)] else l.number == kind
  {
    if Key(kind, TYPE_NAME) in names then Text(names[Key(kind, TYPE_NAME)]) else Number(kind)
  }

  /** What %s prints of a buffer. */
  function CString(b: seq<byte>): (s: seq<byte>)
    ensures s <= b && 0 !in s
    ensures 0 in b ==> |s| < |b| && b[|s|] == 0
    ensures 0 !in b ==> s == b
  {
    if b == [] || b[0] == 0 then [] else [b[0]] + CString(b[1..])
  }

  /** 32-bit subtraction. */
  function Object(r: Record): (l: Label<seq<byte>>)
    ensures l.Text? <==> Flagged(r.group)
    ensures l.Text? ==> l.text <= r.name && 0 !in l.text && (l.text == r.name || r.name[|l.text|] == 0)
    ensures l.Number? && r.group >= -0x8000_0000 + 1000 ==> l.number == r.group - 1000
    ensures l.Number? && r.group < -0x8000_0000 + 1000 ==> l.number == r.group - 1000 + 0x1_0000_0000
  {
    if Flagged(r.group) then Text(CString(r.name))
    else Number(ToSigned32((r.group - 1000) % 0x1_0000_0000))
  }

  function TypesOf(names: Names, kind: Int, n: nat): seq<string> {
    if n == 0 then []
    else TypesOf(names, kind, n - 1) + if Key(kind, n) in names then [names[Key(kind, n)]] else []
  }

  function ResultsOf(names: Names, r: Record, n: nat): seq<Int>
    requires n <= |r.counters|
  {
    if n == 0 then []
    else ResultsOf(names, r, n - 1) + if Key(r.kind, n) in names then [r.counters[n - 1]] else []
  }

  function InfoOf(names: Names, r: Record): (i: Info)
    requires WellFormed(r)
    ensures if (FromSigned32(r.kind), TYPE_NAME) in names then i.id == Text(names[(FromSigned32(r.kind), TYPE_NAME)])
            else i.id == Number(r.kind)
    ensures i.measObj.Text? <==> Flagged(r.group)
  {
    Info(TypeLabel(names, r.kind), Object(r), TypesOf(names, r.kind, COUNTERS), ResultsOf(names, r, COUNTERS))
  }

  /** The counters that have a name, in their order. */
  ghost function Chosen(names: Names, kind: Int, n: nat): (c: seq<nat>)
    ensures forall i :: i in c <==> 0 <= i < n && Key(kind, i + 1) in names
    ensures forall k | 0 <= k < |c| :: c[k] < n
    ensures forall j, k | 0 <= j < k < |c| :: c[j] < c[k]
  {
    if n == 0 then []
    else
      var c := Chosen(names, kind, n - 1);
      if Key(kind, n) in names then c + [n - 1] else c
  }

  /** The k-th name and the k-th value belong to the same counter, and every
      counter that has a name is there. */
  lemma {:induction false} NamesMeetValues(names: Names, r: Record, n: nat)
    requires n <= |r.counters|
    ensures |TypesOf(names, r.kind, n)| == |ResultsOf(names, r, n)| == |Chosen(names, r.kind, n)|
    ensures forall k | 0 <= k < |Chosen(names, r.kind, n)| ::
              var i := Chosen(names, r.kind, n)[k];
              && Key(r.kind, i + 1) in names && i < n
              && TypesOf(names, r.kind, n)[k] == names[Key(r.kind, i + 1)]
              && ResultsOf(names, r, n)[k] == r.counters[i]
    decreases n
  {
    if n > 0 {
      NamesMeetValues(names, r, n - 1);
    }
  }

  // ---- the collection ----

  /** fread: as much as there is. */
  method Fread(src: array<byte>, pos: nat, size: nat) returns (chunk: seq<byte>)
    requires pos <= src.Length
    ensures chunk == if pos + size <= src.Length then src[pos..pos + size] else src[pos..]
  {
    chunk := if pos + size <= src.Length then src[pos..pos + size] else src[pos..];
  }

  /** Shifting and adding byte after byte in 32 bits gives the two's complement
      number of the big-endian word. */
  method ReadInt(ptr: seq<byte>) returns (result: Int)
    requires |ptr| == 4
    ensures result == IntOf(ptr)
  {
    result := 0;
    for i := 0 to 4
      invariant result == ToSigned32(FromBigEndian(ptr[..i]) % 0x1_0000_0000)
    {
      BigEndianStep(ptr, i);
      ShiftInWord(FromBigEndian(ptr[..i]), ptr[i] as int);
      result := ToSigned32((result * 256 + ptr[i] as int) % 0x1_0000_0000);
    }
    assert ptr[..4] == ptr;
    ValuesOf();
  }

  lemma BigEndianStep(b: seq<byte>, i: nat)
    requires i < |b|
    ensures FromBigEndian(b[..i + 1]) == 256 * FromBigEndian(b[..i]) + b[i] as int
  {
    assert b[..i + 1][..i] == b[..i];
  }

  lemma ShiftInWord(n: nat, d: nat)
    ensures (ToSigned32(n % 0x1_0000_0000) * 256 + d) % 0x1_0000_0000 == (256 * n + d) % 0x1_0000_0000
  {
    var q, r := n / 0x1_0000_0000, n % 0x1_0000_0000;
    assert n == q * 0x1_0000_0000 + r;
    if r < 0x8000_0000 {
      WordsOff(256 * n + d, 256 * q);
    } else {
      WordsOff(256 * n + d, 256 * (q + 1));
    }
  }

  lemma WordsOff(a: int, k: int)
    ensures (a - k * 0x1_0000_0000) % 0x1_0000_0000 == a % 0x1_0000_0000
  {
  }

  lemma {:induction false} CounterAt(b: seq<byte>, n: nat, i: nat)
    requires |b| == 4 * n && i < n
    ensures IntsOf(b, n)[i] == IntOf(b[4 * i..4 * i + 4])
    decreases n
  {
    if i > 0 {
      CounterAt(b[4..], n - 1, i - 1);
      FourOn(b, 4 * (i - 1));
    }
  }

  lemma FourOn(b: seq<byte>, j: nat)
    requires j + 8 <= |b|
    ensures b[4..][j..j + 4] == b[j + 4..j + 8]
  {
  }

  method CollectCounters(names: Names, kind: Int, field: seq<byte>) returns (types: seq<string>, results: seq<Int>)
    requires |field| == FIELD && FieldOf(field).kind == kind
    ensures types == TypesOf(names, kind, COUNTERS)
    ensures results == ResultsOf(names, FieldOf(field), COUNTERS)
  {
    types, results := [], [];
    var ptr := field[8..];
    for i := 0 to COUNTERS
      invariant types == TypesOf(names, kind, i) && results == ResultsOf(names, FieldOf(field), i)
    {
      var val := ReadInt(ptr[4 * i..4 * i + 4]);
      CounterAt(ptr, COUNTERS, i);
      if Key(kind, i + 1) !in names {
        continue;
      }
      results := results + [val];
      types := types + [names[Key(kind, i + 1)]];
    }
  }

  ghost function Infos(names: Names, rs: seq<Record>): seq<Info>
    requires AllWellFormed(rs)
  {
    if rs == [] then [] else [InfoOf(names, rs[0])] + Infos(names, rs[1..])
  }

  /** The record at `pos`; nothing when the file ends within it. */
  method CollectRecord(src: array<byte>, pos: nat, names: Names) returns (whole: bool, size: nat, info: Info)
    requires pos <= src.Length
    ensures whole <==> FrontOf(src[pos..]).Whole?
    ensures whole ==> size == FrontOf(src[pos..]).size && info == InfoOf(names, FrontOf(src[pos..]).record)
  {
    info := Info(Number(0), Number(0), [], []);
    var field := Fread(src, pos, FIELD);
    if |field| != FIELD {
      return false, 0, info;
    }
    assert field == src[pos..][..FIELD];
    var statGroup := ReadInt(field[..4]);
    var statGType := ReadInt(field[4..8]);
    size := FIELD;
    var gname: seq<byte> := [];
    if Flagged(statGroup) {
      gname := Fread(src, pos + FIELD, NAME);
      if |gname| != NAME {
        return false, 0, info;
      }
      assert gname[..NAME - 1] == src[pos..][FIELD..][..NAME - 1];
      gname := gname[..NAME - 1] + [0];
      size := FIELD + NAME;
    }
    var types, results := CollectCounters(names, statGType, field);
    SameResults(names, FieldOf(field), gname, COUNTERS);
    info := Info(TypeLabel(names, statGType), Object(FieldOf(field).(name := gname)), types, results);
    whole := true;
  }

  lemma {:induction false} SameResults(names: Names, r: Record, name: seq<byte>, n: nat)
    requires n <= |r.counters|
    ensures ResultsOf(names, r, n) == ResultsOf(names, r.(name := name), n)
    decreases n
  {
    if n > 0 {
      SameResults(names, r, name, n - 1);
    }
  }

  /** What has been collected and what is still to come make up the total. */
  ghost predicate Collecting(total: seq<Info>, done: seq<Info>, names: Names, rest: seq<byte>) {
    total == done + Infos(names, Records(rest))
  }

  lemma Collected(total: seq<Info>, done: seq<Info>, names: Names, rest: seq<byte>)
    requires Collecting(total, done, names, rest)
    ensures FrontOf(rest).Cut? ==> total == done
    ensures FrontOf(rest).Whole? ==>
              Collecting(total, done + [InfoOf(names, FrontOf(rest).record)], names, rest[FrontOf(rest).size..])
  {
  }

  /** All records of a file, up to one it ends within. */
  method CollectStatData(src: array<byte>, names: Names) returns (infos: seq<Info>)
    ensures infos == Infos(names, Records(src[..]))
  {
    var pos := 0;
    ghost var rest, total := src[..], Infos(names, Records(src[..]));
    infos := [];
    while true
      invariant 0 <= pos <= src.Length && rest == src[pos..]
      invariant Collecting(total, infos, names, rest)
      decreases src.Length - pos
    {
      var whole, size, info := CollectRecord(src, pos, names);
      Collected(total, infos, names, rest);
      if !whole {
        break;
      }
      infos := infos + [info];
      pos := pos + size;
      rest := rest[size..];
    }
  }
}
