/**
 The byte format of GGUF metadata (versions 2 and 3, little-endian) with its own tables of type ids, widths and
 magic bytes, and the proof that the reader accepts exactly this format. Of the reader's definitions the format
 uses the result types only.

 A wire value keeps what the reader forgets: the raw number, and the element type of an array, which an
 empty array has too. The GGUF specification allows less than the reader takes: the files of its version 3 are
 `SpecFile`, and `SpecExactly` says which of the files that are read are among them.
 */
module GgufFormat {
  import opened Machine
  import opened Text
  import opened Gguf
  import opened GgufUtf8

  datatype Wire =
    | Num(vtype: nat, raw: nat)
    | Str(bytes: Bytes)
    | Arr(elem: nat, items: seq<Wire>)

  function TypeOf(w: Wire): nat {
    match w
    case Num(vtype, _) => vtype
    case Str(_) => 8
    case Arr(_, _) => 9
  }

  function Pow256(k: nat): (p: nat)
    ensures p >= 1
  {
    if k == 0 then 1 else 256 * Pow256(k - 1)
  }

  predicate Fits(n: nat, width: nat) {
    n < Pow256(width)
  }

  function ToLe(n: nat, width: nat): (b: Bytes)
    ensures |b| == width
  {
    if width == 0 then [] else [n % 256] + ToLe(n / 256, width - 1)
  }

  /** Byte widths of the fixed-size types; 0 for strings, arrays and unused type ids. */
  function FieldWidth(vtype: nat): nat {
    match vtype
    case 0 => 1   // uint8
    case 1 => 1   // int8
    case 2 => 2   // uint16
    case 3 => 2   // int16
    case 4 => 4   // uint32
    case 5 => 4   // int32
    case 6 => 4   // float32
    case 7 => 1   // bool
    case 10 => 8  // uint64
    case 11 => 8  // int64
    case 12 => 8  // float64
    case _ => 0
  }

  /** The number whose two's complement in `width` bytes is `raw`. */
  function TwosComplement(raw: nat, width: nat): int {
    if 2 * raw < Pow256(width) then raw else raw - Pow256(width)
  }

  function Number(vtype: nat, raw: nat): MetaValue
    requires FieldWidth(vtype) > 0
  {
    match vtype
    case 0 => U8(raw)
    case 1 => I8(TwosComplement(raw, 1))
    case 2 => U16(raw)
    case 3 => I16(TwosComplement(raw, 2))
    case 4 => U32(raw)
    case 5 => I32(TwosComplement(raw, 4))
    case 6 => F32(raw)
    case 7 => Bool(raw != 0)
    case 10 => U64(raw)
    case 11 => I64(TwosComplement(raw, 8))
    case 12 => F64(raw)
  }

  ghost predicate WfString(b: Bytes) {
    IsUtf8(b) && Fits(|b|, 8)
  }

  ghost predicate Wf(w: Wire) {
    match w
    case Num(vtype, raw) => FieldWidth(vtype) > 0 && Fits(raw, FieldWidth(vtype))
    case Str(b) => WfString(b)
    case Arr(elem, items) => Fits(elem, 4) && Fits(|items|, 8) && WfItems(items, elem)
  }

  ghost predicate WfItems(items: seq<Wire>, elem: nat) {
    items == [] || (TypeOf(items[0]) == elem && Wf(items[0]) && WfItems(items[1..], elem))
  }

  function Encode(w: Wire): Bytes {
    match w
    case Num(vtype, raw) => ToLe(raw, FieldWidth(vtype))
    case Str(b) => ToLe(|b|, 8) + b
    case Arr(elem, items) => ToLe(elem, 4) + (ToLe(|items|, 8) + EncodeItems(items))
  }

  function EncodeItems(items: seq<Wire>): Bytes {
    if items == [] then [] else Encode(items[0]) + EncodeItems(items[1..])
  }

  /** The value a wire value stands for. */
  function Value(w: Wire): MetaValue
    requires Wf(w)
  {
    match w
    case Num(vtype, raw) => Number(vtype, raw)
    case Str(b) => String(b)
    case Arr(elem, items) => Array(Values(items, elem))
  }

  function Values(items: seq<Wire>, elem: nat): seq<MetaValue>
    requires WfItems(items, elem)
  {
    if items == [] then [] else [Value(items[0])] + Values(items[1..], elem)
  }

  /** The reader's table of widths is the format's, and it gives every number of a type the value the format gives. */
  lemma NumbersMean(vtype: nat)
    ensures Width(vtype) == FieldWidth(vtype)
    ensures forall raw: nat :: Width(vtype) > 0 && Fits(raw, FieldWidth(vtype)) ==>
              Interpret(vtype, raw) == Number(vtype, raw)
  {
    PowersOf256();
  }

  // ----- Numbers -----

  lemma {:induction false} LeRead(n: nat, width: nat)
    requires Fits(n, width)
    ensures FromLe(ToLe(n, width)) == n
  {
    if width > 0 {
      LeRead(n / 256, width - 1);
      assert ToLe(n, width)[1..] == ToLe(n / 256, width - 1);
    }
  }

  lemma LowByte(low: Byte, high: nat)
    ensures (low + 256 * high) % 256 == low && (low + 256 * high) / 256 == high
  {
  }

  lemma {:induction false} LeWritten(b: Bytes)
    ensures Fits(FromLe(b), |b|) && ToLe(FromLe(b), |b|) == b
  {
    if b != [] {
      LeWritten(b[1..]);
      LowByte(b[0], FromLe(b[1..]));
    }
  }

  lemma {:induction false} UintRead(n: nat, width: nat, rest: Bytes)
    requires Fits(n, width)
    ensures ReadUint(ToLe(n, width) + rest, width) == Done(n, rest)
  {
    LeRead(n, width);
    assert (ToLe(n, width) + rest)[..width] == ToLe(n, width);
  }

  lemma UintWritten(buf: Bytes, width: nat)
    requires ReadUint(buf, width).Done?
    ensures var r := ReadUint(buf, width); Fits(r.value, width) && buf == ToLe(r.value, width) + r.rest
  {
    LeWritten(buf[..width]);
  }

  // ----- Strings -----

  lemma StringRead(b: Bytes, rest: Bytes)
    requires WfString(b)
    ensures ReadString(ToLe(|b|, 8) + b + rest) == Done(b, rest)
  {
    hide ReadUint, ToLe, Fits, ValidUtf8, IsUtf8;
    Utf8Exactly(b);
    assert ToLe(|b|, 8) + b + rest == ToLe(|b|, 8) + (b + rest);
    UintRead(|b|, 8, b + rest);
    assert (b + rest)[..|b|] == b && (b + rest)[|b|..] == rest;
  }

  lemma StringWritten(buf: Bytes)
    requires ReadString(buf).Done?
    ensures var r := ReadString(buf); WfString(r.value) && buf == ToLe(|r.value|, 8) + r.value + r.rest
  {
    hide ReadUint, ToLe, Fits, ValidUtf8, IsUtf8;
    Utf8Exactly(ReadString(buf).value);
    UintWritten(buf, 8);
    var r := ReadUint(buf, 8);
    assert r.rest == r.rest[..r.value] + r.rest[r.value..];
  }

  // ----- Values: everything encoded is read back -----

  lemma OtherTypes()
    ensures Width(STRING) == Width(ARRAY) == 0 && STRING == 8 && ARRAY == 9
  {
  }

  lemma {:induction false} ValueRead(w: Wire, rest: Bytes)
    requires Wf(w)
    ensures ReadValue(Encode(w) + rest, TypeOf(w)) == Done(Value(w), rest)
    decreases w, 0
  {
    hide ReadUint, ToLe, Fits, ReadString, ReadItems, EncodeItems, WfItems, WfString;
    hide Number, Interpret, Width, FieldWidth;
    NumbersMean(TypeOf(w));
    OtherTypes();
    match w
    case Num(vtype, raw) =>
      UintRead(raw, FieldWidth(vtype), rest);
    case Str(b) =>
      StringRead(b, rest);
    case Arr(elem, items) =>
      var tail := EncodeItems(items) + rest;
      assert Encode(w) + rest == ToLe(elem, 4) + (ToLe(|items|, 8) + tail);
      UintRead(elem, 4, ToLe(|items|, 8) + tail);
      UintRead(|items|, 8, tail);
      ItemsRead(items, elem, rest);
  }

  lemma {:induction false} ItemsRead(items: seq<Wire>, elem: nat, rest: Bytes)
    requires WfItems(items, elem)
    ensures ReadItems(EncodeItems(items) + rest, elem, |items|) == Done(Values(items, elem), rest)
    decreases items, 1
  {
    hide ReadValue, Wf, Encode, Value;
    if items == [] {
      assert EncodeItems(items) + rest == rest;
    } else {
      var tail := EncodeItems(items[1..]) + rest;
      assert EncodeItems(items) + rest == Encode(items[0]) + tail;
      ValueRead(items[0], tail);
      ItemsRead(items[1..], elem, rest);
    }
  }

  // ----- Values: everything read was encoded -----

  lemma {:induction false} ValueWritten(buf: Bytes, vtype: nat) returns (w: Wire)
    requires ReadValue(buf, vtype).Done?
    ensures Wf(w) && TypeOf(w) == vtype
    ensures Value(w) == ReadValue(buf, vtype).value && buf == Encode(w) + ReadValue(buf, vtype).rest
    decreases |buf|, 0
  {
    hide ReadUint, ToLe, Fits, ReadString, ReadItems, EncodeItems, WfItems, WfString, Values;
    hide Number, Interpret, Width, FieldWidth;
    NumbersMean(vtype);
    if Width(vtype) > 0 {
      UintWritten(buf, Width(vtype));
      w := Num(vtype, ReadUint(buf, Width(vtype)).value);
    } else if vtype == STRING {
      StringWritten(buf);
      w := Str(ReadString(buf).value);
    } else {
      var elem := ReadUint(buf, 4);
      UintWritten(buf, 4);
      var count := ReadUint(elem.rest, 8);
      UintWritten(elem.rest, 8);
      var items := ItemsWritten(count.rest, elem.value, count.value);
      w := Arr(elem.value, items);
      var rest := ReadItems(count.rest, elem.value, count.value).rest;
      Concat4(ToLe(elem.value, 4), ToLe(count.value, 8), EncodeItems(items), rest);
    }
  }

  lemma Concat4(a: Bytes, b: Bytes, c: Bytes, d: Bytes)
    ensures a + (b + (c + d)) == (a + (b + c)) + d
  {
  }

  lemma {:induction false} ItemsWritten(buf: Bytes, elem: nat, count: nat) returns (items: seq<Wire>)
    requires ReadItems(buf, elem, count).Done?
    ensures |items| == count && WfItems(items, elem)
    ensures Values(items, elem) == ReadItems(buf, elem, count).value
    ensures buf == EncodeItems(items) + ReadItems(buf, elem, count).rest
    decreases |buf|, 1
  {
    hide ReadValue, Wf, Encode, Value;
    if count == 0 {
      items := [];
    } else {
      var first := ReadValue(buf, elem);
      var w := ValueWritten(buf, elem);
      var more := ItemsWritten(first.rest, elem, count - 1);
      items := [w] + more;
      assert items[1..] == more;
      var rest := ReadItems(first.rest, elem, count - 1).rest;
      assert Encode(w) + (EncodeItems(more) + rest) == (Encode(w) + EncodeItems(more)) + rest;
    }
  }

  /** `buf` is the encoding of a value of type `vtype` that stands for `v`, followed by `rest`. */
  ghost predicate IsValue(buf: Bytes, vtype: nat, v: MetaValue, rest: Bytes) {
    exists w: Wire :: Wf(w) && TypeOf(w) == vtype && Value(w) == v && buf == Encode(w) + rest
  }

  /** The reader accepts exactly the encodings, and nothing else. */
  lemma ValueReadExactly(buf: Bytes, vtype: nat, v: MetaValue, rest: Bytes)
    ensures ReadValue(buf, vtype) == Done(v, rest) <==> IsValue(buf, vtype, v, rest)
  {
    hide ReadValue, Wf, Encode, Value;
    if ReadValue(buf, vtype) == Done(v, rest) {
      var w := ValueWritten(buf, vtype);
    }
    if IsValue(buf, vtype, v, rest) {
      var w: Wire :| Wf(w) && TypeOf(w) == vtype && Value(w) == v && buf == Encode(w) + rest;
      ValueRead(w, rest);
    }
  }

  // ----- Files -----

  datatype Pair = Pair(key: Bytes, value: Wire)

  ghost predicate WfPairs(pairs: seq<Pair>) {
    forall i :: 0 <= i < |pairs| ==> WfString(pairs[i].key) && Wf(pairs[i].value)
  }

  function EncodePair(p: Pair): Bytes {
    (ToLe(|p.key|, 8) + p.key) + (ToLe(TypeOf(p.value), 4) + Encode(p.value))
  }

  function EncodePairs(pairs: seq<Pair>): Bytes {
    if pairs == [] then [] else EncodePair(pairs[0]) + EncodePairs(pairs[1..])
  }

  /** Later pairs replace earlier ones of the same key. */
  ghost function Merge(m: map<Bytes, MetaValue>, pairs: seq<Pair>): map<Bytes, MetaValue>
    requires WfPairs(pairs)
    decreases |pairs|
  {
    if pairs == [] then m else Merge(m[pairs[0].key := Value(pairs[0].value)], pairs[1..])
  }

  /** The letters GGUF. */
  const MAGIC_BYTES: Bytes := [0x47, 0x47, 0x55, 0x46]

  function EncodeHeader(h: Header): Bytes {
    MAGIC_BYTES + (ToLe(h.version, 4) + (ToLe(h.tensorCount, 8) + ToLe(h.kvCount, 8)))
  }

  predicate WfHeader(h: Header) {
    (h.version == 2 || h.version == 3) && Fits(h.tensorCount, 8) && Fits(h.kvCount, 8)
  }

  lemma PowersOf256()
    ensures Pow256(1) == 0x100 && Pow256(2) == 0x1_0000 && Pow256(4) == 0x1_0000_0000
    ensures Pow256(8) == 0x1_0000_0000_0000_0000
  {
  }

  /** The reader's magic number is that of the four letters. */
  lemma MagicIsGguf()
    ensures ToLe(MAGIC, 4) == MAGIC_BYTES && FromLe(MAGIC_BYTES) == MAGIC && Fits(MAGIC, 4)
  {
    PowersOf256();
    assert FromLe([0x46]) == 0x46 && FromLe([0x55, 0x46]) == 0x4655 && FromLe([0x47, 0x55, 0x46]) == 0x46_5547;
    assert FromLe(MAGIC_BYTES) == MAGIC;
    LeWritten(MAGIC_BYTES);
  }

  lemma HeaderRead(h: Header, rest: Bytes)
    requires WfHeader(h)
    ensures ReadHeader(EncodeHeader(h) + rest) == Done(h, rest)
  {
    PowersOf256();
    MagicIsGguf();
    assert Fits(h.version, 4);
    hide ReadUint, ToLe, Fits;
    var kv := ToLe(h.kvCount, 8) + rest;
    var tensors := ToLe(h.tensorCount, 8) + kv;
    var version := ToLe(h.version, 4) + tensors;
    assert EncodeHeader(h) + rest == MAGIC_BYTES + version;
    UintRead(MAGIC, 4, version);
    UintRead(h.version, 4, tensors);
    UintRead(h.tensorCount, 8, kv);
    UintRead(h.kvCount, 8, rest);
  }

  lemma HeaderWritten(buf: Bytes)
    requires ReadHeader(buf).Done?
    ensures var r := ReadHeader(buf); WfHeader(r.value) && buf == EncodeHeader(r.value) + r.rest
  {
    MagicIsGguf();
    hide ReadUint, ToLe, Fits;
    var magic := ReadUint(buf, 4);
    var version := ReadUint(magic.rest, 4);
    var tensors := ReadUint(version.rest, 8);
    var kv := ReadUint(tensors.rest, 8);
    UintWritten(buf, 4);
    UintWritten(magic.rest, 4);
    UintWritten(version.rest, 8);
    UintWritten(tensors.rest, 8);
  }

  lemma PairRead(p: Pair, rest: Bytes)
    requires WfString(p.key) && Wf(p.value)
    ensures ReadPair(EncodePair(p) + rest) == Done((p.key, Value(p.value)), rest)
  {
    hide ReadUint, ToLe, ReadString, ReadValue, Wf, WfString, Encode, Value, TypeOf, EncodePair;
    PairParts(p, rest);
    ValueRead(p.value, rest);
  }

  /** What is read of a pair before its value. */
  lemma PairParts(p: Pair, rest: Bytes)
    requires WfString(p.key) && Wf(p.value)
    ensures var value := Encode(p.value) + rest;
            var vtype := ToLe(TypeOf(p.value), 4) + value;
            && ReadString(EncodePair(p) + rest) == Done(p.key, vtype)
            && ReadUint(vtype, 4) == Done(TypeOf(p.value), value)
  {
    TypeFits(p.value);
    hide ReadUint, ToLe, Fits, ReadString, Wf, WfString, Encode, TypeOf;
    var value := Encode(p.value) + rest;
    var vtype := ToLe(TypeOf(p.value), 4) + value;
    assert EncodePair(p) + rest == ToLe(|p.key|, 8) + p.key + vtype;
    StringRead(p.key, vtype);
    UintRead(TypeOf(p.value), 4, value);
  }

  lemma TypeFits(w: Wire)
    requires Wf(w)
    ensures Fits(TypeOf(w), 4)
  {
  }

  lemma PairWritten(buf: Bytes) returns (p: Pair)
    requires ReadPair(buf).Done?
    ensures WfString(p.key) && Wf(p.value)
    ensures ReadPair(buf).value == (p.key, Value(p.value)) && buf == EncodePair(p) + ReadPair(buf).rest
  {
    hide ReadUint, ToLe, Fits, ReadString, ReadValue, Wf, WfString, Encode, Value, TypeOf;
    var key := ReadString(buf);
    var vtype := ReadUint(key.rest, 4);
    StringWritten(buf);
    UintWritten(key.rest, 4);
    var w := ValueWritten(vtype.rest, vtype.value);
    p := Pair(key.value, w);
  }

  lemma {:induction false} PairsRead(pairs: seq<Pair>, m: map<Bytes, MetaValue>, rest: Bytes)
    requires WfPairs(pairs)
    ensures ReadPairs(EncodePairs(pairs) + rest, |pairs|, m) == Done(Merge(m, pairs), rest)
    decreases |pairs|
  {
    hide ReadPair, EncodePair, Wf, WfString, Value;
    if pairs == [] {
      assert EncodePairs(pairs) + rest == rest;
    } else {
      var p, tail := pairs[0], EncodePairs(pairs[1..]) + rest;
      assert EncodePairs(pairs) + rest == EncodePair(p) + tail;
      PairRead(p, tail);
      PairsRead(pairs[1..], m[p.key := Value(p.value)], rest);
    }
  }

  lemma {:induction false} PairsWritten(buf: Bytes, count: nat, m: map<Bytes, MetaValue>) returns (pairs: seq<Pair>)
    requires ReadPairs(buf, count, m).Done?
    ensures |pairs| == count && WfPairs(pairs)
    ensures Merge(m, pairs) == ReadPairs(buf, count, m).value
    ensures buf == EncodePairs(pairs) + ReadPairs(buf, count, m).rest
    decreases count
  {
    hide ReadPair, EncodePair, Wf, WfString, Value;
    if count == 0 {
      pairs := [];
    } else {
      var p := PairWritten(buf);
      var rest := ReadPair(buf).rest;
      var m' := m[p.key := Value(p.value)];
      var more := PairsWritten(rest, count - 1, m');
      pairs := [p] + more;
      assert pairs[1..] == more;
      assert EncodePair(p) + (EncodePairs(more) + ReadPairs(rest, count - 1, m').rest)
          == (EncodePair(p) + EncodePairs(more)) + ReadPairs(rest, count - 1, m').rest;
    }
  }

  /** A header and its pairs, followed by anything. */
  ghost predicate Lays(bytes: Bytes, h: Header, pairs: seq<Pair>, rest: Bytes) {
    && WfHeader(h) && WfPairs(pairs) && h.kvCount == |pairs|
    && bytes == EncodeHeader(h) + (EncodePairs(pairs) + rest)
  }

  /** `bytes` is a GGUF file of version 2 or 3 with the given content, followed by anything. */
  ghost predicate IsFile(bytes: Bytes, f: GgufFile) {
    exists h: Header, pairs: seq<Pair>, rest: Bytes ::
      Lays(bytes, h, pairs, rest) && f == GgufFile(h.version, h.tensorCount, Merge(map[], pairs))
  }

  /** Parsing succeeds with `f` exactly on the files with content `f`. */
  lemma FileReadExactly(bytes: Bytes, f: GgufFile)
    ensures ParseFile(bytes) == Ok(f) <==> IsFile(bytes, f)
  {
    hide ReadHeader, ReadPairs, WfHeader, WfPairs, EncodeHeader, EncodePairs, Merge;
    if ParseFile(bytes) == Ok(f) {
      var r := ReadHeader(bytes);
      HeaderWritten(bytes);
      var pairs := PairsWritten(r.rest, r.value.kvCount, map[]);
      var rest := ReadPairs(r.rest, r.value.kvCount, map[]).rest;
      assert Lays(bytes, r.value, pairs, rest);
    }
    if IsFile(bytes, f) {
      var h: Header, pairs: seq<Pair>, rest: Bytes :|
        Lays(bytes, h, pairs, rest) && f == GgufFile(h.version, h.tensorCount, Merge(map[], pairs));
      HeaderRead(h, EncodePairs(pairs) + rest);
      PairsRead(pairs, map[], rest);
    }
  }

  /** What the merged map holds for a key no pair has: what was there before. */
  lemma {:induction false} MergeKeeps(m: map<Bytes, MetaValue>, pairs: seq<Pair>, key: Bytes)
    requires WfPairs(pairs) && forall j :: 0 <= j < |pairs| ==> pairs[j].key != key
    ensures key in Merge(m, pairs) <==> key in m
    ensures key in m ==> Merge(m, pairs)[key] == m[key]
    decreases |pairs|
  {
    hide Value, Wf, WfString;
    if pairs != [] { MergeKeeps(m[pairs[0].key := Value(pairs[0].value)], pairs[1..], key); }
  }

  /** What it holds for the key of a pair: the value of the last pair with that key. */
  lemma {:induction false} MergeLastWins(m: map<Bytes, MetaValue>, pairs: seq<Pair>, i: nat)
    requires WfPairs(pairs) && i < |pairs| && forall j :: i < j < |pairs| ==> pairs[j].key != pairs[i].key
    ensures pairs[i].key in Merge(m, pairs) && Merge(m, pairs)[pairs[i].key] == Value(pairs[i].value)
    decreases |pairs|
  {
    hide Value, Wf, WfString;
    var m' := m[pairs[0].key := Value(pairs[0].value)];
    if i == 0 { MergeKeeps(m', pairs[1..], pairs[0].key); } else { MergeLastWins(m', pairs[1..], i - 1); }
  }

  // ----- What is refused, and why -----

  /** The first four bytes decide on the magic errors, the next four on the version; too few bytes are end of data. */
  lemma HeaderErrors(buf: Bytes)
    ensures ReadHeader(buf) ==
            if |buf| < 4 then Fail(UnexpectedEof)
            else if buf[..4] == [0x46, 0x55, 0x47, 0x47] then Fail(BigEndianUnsupported)
            else if buf[..4] != [0x47, 0x47, 0x55, 0x46] then Fail(BadMagic(FromLe(buf[..4])))
            else if |buf| < 8 then Fail(UnexpectedEof)
            else if FromLe(buf[4..8]) != 2 && FromLe(buf[4..8]) != 3 then Fail(UnsupportedVersion(FromLe(buf[4..8])))
            else if |buf| < 24 then Fail(UnexpectedEof)
            else Done(Header(FromLe(buf[4..8]), FromLe(buf[8..16]), FromLe(buf[16..24])), buf[24..])
  {
    if |buf| >= 4 {
      LeWritten(buf[..4]);
      MagicIsGguf();
      SwappedMagic();
      hide FromLe, ToLe;
      assert |buf| >= 8 ==> buf[4..][..4] == buf[4..8];
      assert |buf| >= 16 ==> buf[4..][4..][..8] == buf[8..16];
      assert |buf| >= 24 ==> buf[4..][4..][8..][..8] == buf[16..24] && buf[4..][4..][8..][8..] == buf[24..];
    }
  }

  lemma SwappedMagic()
    ensures ToLe(MAGIC_BE, 4) == [0x46, 0x55, 0x47, 0x47] && FromLe([0x46, 0x55, 0x47, 0x47]) == MAGIC_BE
  {
    PowersOf256();
    assert FromLe([0x47]) == 0x47 && FromLe([0x47, 0x47]) == 0x4747 && FromLe([0x55, 0x47, 0x47]) == 0x47_4755;
    assert FromLe([0x46, 0x55, 0x47, 0x47]) == MAGIC_BE;
    LeWritten([0x46, 0x55, 0x47, 0x47]);
  }

  /** A string is refused for want of bytes, or else exactly when it is not UTF-8. */
  lemma StringErrors(buf: Bytes)
    ensures ReadString(buf) ==
            if |buf| < 8 || |buf| - 8 < FromLe(buf[..8]) then Fail(UnexpectedEof)
            else
              var end := 8 + FromLe(buf[..8]);
              if IsUtf8(buf[8..end]) then Done(buf[8..end], buf[end..]) else Fail(InvalidUtf8)
  {
    if |buf| >= 8 {
      var n := FromLe(buf[..8]);
      if n <= |buf| - 8 {
        Utf8Exactly(buf[8..8 + n]);
        assert buf[8..][..n] == buf[8..8 + n] && buf[8..][n..] == buf[8 + n..];
      }
      hide FromLe, ValidUtf8, IsUtf8;
    }
  }

  /** There are thirteen types; a value of any other is refused with its type, also as an element of an array. */
  lemma UnknownTypes(buf: Bytes, vtype: nat)
    ensures vtype > 12 ==> ReadValue(buf, vtype) == Fail(UnknownValueType(vtype))
    ensures vtype <= 12 ==> ReadValue(buf, vtype) != Fail(UnknownValueType(vtype))
  {
    if vtype > 12 {
      hide ReadUint, ReadString;
    } else {
      OwnTypeKnown(buf, vtype);
    }
  }

  lemma {:induction false} OwnTypeKnown(buf: Bytes, vtype: nat)
    ensures var r := ReadValue(buf, vtype); r.Fail? && r.error.UnknownValueType? ==> r.error.id > 12
    decreases |buf|, 0
  {
    hide ReadUint, ReadItems;
    if vtype == ARRAY {
      var elem := ReadUint(buf, 4);
      if elem.Done? {
        var count := ReadUint(elem.rest, 8);
        if count.Done? { ItemTypeKnown(count.rest, elem.value, count.value); }
      }
    } else if Width(vtype) > 0 {
      EofOnly(buf, Width(vtype));
    } else if vtype == STRING {
      StringErrors(buf);
      hide ReadString, IsUtf8;
    }
    EofOnly(buf, 4);
    if ReadUint(buf, 4).Done? { EofOnly(ReadUint(buf, 4).rest, 8); }
  }

  lemma EofOnly(buf: Bytes, width: nat)
    ensures var r := ReadUint(buf, width); r.Fail? ==> r.error == UnexpectedEof
  {
  }

  lemma {:induction false} ItemTypeKnown(buf: Bytes, elem: nat, count: nat)
    ensures var r := ReadItems(buf, elem, count); r.Fail? && r.error.UnknownValueType? ==> r.error.id > 12
    decreases |buf|, 1
  {
    hide ReadValue;
    if count > 0 {
      OwnTypeKnown(buf, elem);
      var r := ReadValue(buf, elem);
      if r.Done? { ItemTypeKnown(r.rest, elem, count - 1); }
    }
  }

  // ----- The format can be read in one way only -----

  lemma {:induction false} WireUnique(v: Wire, w: Wire, r: Bytes, r': Bytes)
    requires Wf(v) && Wf(w) && TypeOf(v) == TypeOf(w) && Encode(v) + r == Encode(w) + r'
    ensures v == w && r == r'
    decreases v, 0
  {
    hide ReadUint, ReadString, ToLe, Fits, EncodeItems, WfItems, WfString;
    match v
    case Num(vtype, raw) =>
      UintRead(raw, FieldWidth(vtype), r);
      UintRead(w.raw, FieldWidth(vtype), r');
    case Str(b) =>
      StringRead(b, r);
      StringRead(w.bytes, r');
    case Arr(elem, items) =>
      var s, s' := EncodeItems(items) + r, EncodeItems(w.items) + r';
      Concat4(ToLe(elem, 4), ToLe(|items|, 8), EncodeItems(items), r);
      Concat4(ToLe(w.elem, 4), ToLe(|w.items|, 8), EncodeItems(w.items), r');
      UintRead(elem, 4, ToLe(|items|, 8) + s);
      UintRead(w.elem, 4, ToLe(|w.items|, 8) + s');
      UintRead(|items|, 8, s);
      UintRead(|w.items|, 8, s');
      ItemsUnique(items, w.items, elem, r, r');
  }

  lemma {:induction false} ItemsUnique(vs: seq<Wire>, ws: seq<Wire>, elem: nat, r: Bytes, r': Bytes)
    requires WfItems(vs, elem) && WfItems(ws, elem) && |vs| == |ws| && EncodeItems(vs) + r == EncodeItems(ws) + r'
    ensures vs == ws && r == r'
    decreases vs, 1
  {
    hide Wf, Encode;
    if vs == [] {
      assert EncodeItems(vs) + r == r && EncodeItems(ws) + r' == r';
    } else {
      assert EncodeItems(vs) + r == Encode(vs[0]) + (EncodeItems(vs[1..]) + r);
      assert EncodeItems(ws) + r' == Encode(ws[0]) + (EncodeItems(ws[1..]) + r');
      WireUnique(vs[0], ws[0], EncodeItems(vs[1..]) + r, EncodeItems(ws[1..]) + r');
      ItemsUnique(vs[1..], ws[1..], elem, r, r');
      assert vs == [vs[0]] + vs[1..] && ws == [ws[0]] + ws[1..];
    }
  }

  lemma PairUnique(p: Pair, q: Pair, r: Bytes, r': Bytes)
    requires WfString(p.key) && Wf(p.value) && WfString(q.key) && Wf(q.value)
    requires EncodePair(p) + r == EncodePair(q) + r'
    ensures p == q && r == r'
  {
    hide ReadUint, ReadString, ToLe, WfString, Wf, Encode, TypeOf, EncodePair;
    PairParts(p, r);
    PairParts(q, r');
    WireUnique(p.value, q.value, r, r');
  }

  lemma {:induction false} PairsUnique(ps: seq<Pair>, qs: seq<Pair>, r: Bytes, r': Bytes)
    requires WfPairs(ps) && WfPairs(qs) && |ps| == |qs| && EncodePairs(ps) + r == EncodePairs(qs) + r'
    ensures ps == qs && r == r'
    decreases |ps|
  {
    hide Wf, WfString, EncodePair;
    if ps == [] {
      assert EncodePairs(ps) + r == r && EncodePairs(qs) + r' == r';
    } else {
      assert EncodePairs(ps) + r == EncodePair(ps[0]) + (EncodePairs(ps[1..]) + r);
      assert EncodePairs(qs) + r' == EncodePair(qs[0]) + (EncodePairs(qs[1..]) + r');
      PairUnique(ps[0], qs[0], EncodePairs(ps[1..]) + r, EncodePairs(qs[1..]) + r');
      PairsUnique(ps[1..], qs[1..], r, r');
      assert ps == [ps[0]] + ps[1..] && qs == [qs[0]] + qs[1..];
    }
  }

  /** No bytes can be read in two ways: every header field, key, raw number and element type is determined. */
  lemma FileUnique(bytes: Bytes, h: Header, ps: seq<Pair>, r: Bytes, h': Header, qs: seq<Pair>, r': Bytes)
    requires Lays(bytes, h, ps, r) && Lays(bytes, h', qs, r')
    ensures h == h' && ps == qs && r == r'
  {
    hide WfHeader, WfPairs, EncodeHeader, EncodePairs, ReadHeader;
    HeaderRead(h, EncodePairs(ps) + r);
    HeaderRead(h', EncodePairs(qs) + r');
    PairsUnique(ps, qs, r, r');
  }

  // ----- What the specification allows -----

  /** A key of lower-case words joined by underscores, in segments joined by dots, of at most 65535 bytes. */
  predicate SpecKey(b: Bytes) {
    && 0 < |b| <= 65535
    && (forall i :: 0 <= i < |b| ==> 0x61 <= b[i] <= 0x7A || 0x30 <= b[i] <= 0x39 || b[i] == 0x5F || b[i] == 0x2E)
    && b[0] != 0x2E && b[|b| - 1] != 0x2E
    && (forall i :: 0 < i < |b| ==> !(b[i - 1] == 0x2E && b[i] == 0x2E))
  }

  /** Booleans are stored as 0 or 1, and the element type of an array, of an empty one too, is one of 0 to 12. */
  predicate SpecValue(w: Wire) {
    match w
    case Num(vtype, raw) => vtype == 7 ==> raw <= 1
    case Str(_) => true
    case Arr(elem, items) => elem <= 12 && forall i :: 0 <= i < |items| ==> SpecValue(items[i])
  }

  predicate SpecPairs(pairs: seq<Pair>) {
    forall i :: 0 <= i < |pairs| ==> SpecKey(pairs[i].key) && SpecValue(pairs[i].value)
  }

  /** A file of version 3 by the specification's section on file structure, up to the end of its metadata. */
  ghost predicate SpecFile(bytes: Bytes) {
    exists h: Header, pairs: seq<Pair>, rest: Bytes ::
      Lays(bytes, h, pairs, rest) && h.version == 3 && SpecPairs(pairs)
  }

  /** Every file of the specification is read, with the content that was written. */
  lemma SpecFileRead(bytes: Bytes) returns (h: Header, pairs: seq<Pair>)
    requires SpecFile(bytes)
    ensures h.version == 3 && SpecPairs(pairs) && WfPairs(pairs) && exists rest :: Lays(bytes, h, pairs, rest)
    ensures ParseFile(bytes) == Ok(GgufFile(h.version, h.tensorCount, Merge(map[], pairs)))
  {
    hide ParseFile, WfHeader, EncodeHeader, EncodePairs, Merge, SpecPairs;
    var rest: Bytes;
    h, pairs, rest :| Lays(bytes, h, pairs, rest) && h.version == 3 && SpecPairs(pairs);
    FileReadExactly(bytes, GgufFile(h.version, h.tensorCount, Merge(map[], pairs)));
  }

  /** Of the files that are read, those of the specification are of version 3 with its keys, booleans and types only. */
  lemma SpecExactly(bytes: Bytes, h: Header, pairs: seq<Pair>, rest: Bytes)
    requires Lays(bytes, h, pairs, rest)
    ensures SpecFile(bytes) <==> h.version == 3 && SpecPairs(pairs)
  {
    hide Lays, SpecPairs;
    if SpecFile(bytes) {
      var h': Header, qs: seq<Pair>, r: Bytes :| Lays(bytes, h', qs, r) && h'.version == 3 && SpecPairs(qs);
      FileUnique(bytes, h, pairs, rest, h', qs, r);
    }
  }

  /** A version 3 file with one pair. */
  function OnePair(key: Bytes, w: Wire, rest: Bytes): Bytes {
    EncodeHeader(Header(3, 0, 1)) + (EncodePairs([Pair(key, w)]) + rest)
  }

  /** Such a file is always read, and is one of the specification exactly when its key and its value are. */
  lemma OnePairRead(key: Bytes, w: Wire, rest: Bytes)
    requires WfString(key) && Wf(w)
    ensures ParseFile(OnePair(key, w, rest)) == Ok(GgufFile(3, 0, map[key := Value(w)]))
    ensures SpecFile(OnePair(key, w, rest)) <==> SpecKey(key) && SpecValue(w)
  {
    hide *;
    var h, pairs := Header(3, 0, 1), [Pair(key, w)];
    OnePairLaid(key, w, rest);
    SpecExactly(OnePair(key, w, rest), h, pairs, rest);
    LaidIsRead(OnePair(key, w, rest), h, pairs, rest);
  }

  lemma OnePairLaid(key: Bytes, w: Wire, rest: Bytes)
    requires WfString(key) && Wf(w)
    ensures var h, pairs := Header(3, 0, 1), [Pair(key, w)];
            && Lays(OnePair(key, w, rest), h, pairs, rest) && h.version == 3 && h.tensorCount == 0
            && WfPairs(pairs) && Merge(map[], pairs) == map[key := Value(w)]
            && (SpecPairs(pairs) <==> SpecKey(key) && SpecValue(w))
  {
    PowersOf256();
    hide EncodeHeader, EncodePairs, WfString, Wf, Value, SpecKey, SpecValue;
    var pairs := [Pair(key, w)];
    assert SpecPairs(pairs) <==> SpecKey(pairs[0].key) && SpecValue(pairs[0].value);
    assert pairs[1..] == [];
  }

  lemma LaidIsRead(bytes: Bytes, h: Header, pairs: seq<Pair>, rest: Bytes)
    requires Lays(bytes, h, pairs, rest) && WfPairs(pairs)
    ensures ParseFile(bytes) == Ok(GgufFile(h.version, h.tensorCount, Merge(map[], pairs)))
  {
    hide ParseFile, Lays, WfPairs, Merge;
    FileReadExactly(bytes, GgufFile(h.version, h.tensorCount, Merge(map[], pairs)));
  }

  /**
   The reader takes more than the specification allows, whatever the key: a boolean byte from 2 on is read as true,
   and an empty array of a type that does not exist as an empty array.
   */
  lemma ReadsBeyondSpec(key: Bytes, raw: nat, elem: nat, rest: Bytes)
    requires WfString(key) && 2 <= raw < 256 && 13 <= elem && Fits(elem, 4)
    ensures var bytes := OnePair(key, Num(7, raw), rest);
            !SpecFile(bytes) && ParseFile(bytes) == Ok(GgufFile(3, 0, map[key := Bool(true)]))
    ensures var bytes := OnePair(key, Arr(elem, []), rest);
            !SpecFile(bytes) && ParseFile(bytes) == Ok(GgufFile(3, 0, map[key := Array([])]))
  {
    PowersOf256();
    hide OnePair, ParseFile, SpecFile, WfString;
    OnePairRead(key, Num(7, raw), rest);
    OnePairRead(key, Arr(elem, []), rest);
  }

  // ----- Appended bytes, and how many bytes a count needs -----

  /** With `extra` appended, a read that did not run out of bytes gives the same. */
  ghost predicate Stable<T>(p: Parse<T>, q: Parse<T>, extra: Bytes) {
    match p
    case Done(v, rest) => q == Done(v, rest + extra)
    case Fail(e) => e != UnexpectedEof ==> q == Fail(e)
  }

  lemma UintStable(buf: Bytes, width: nat, extra: Bytes)
    ensures Stable(ReadUint(buf, width), ReadUint(buf + extra, width), extra)
  {
    if width <= |buf| {
      assert (buf + extra)[..width] == buf[..width] && (buf + extra)[width..] == buf[width..] + extra;
    }
  }

  lemma StringStable(buf: Bytes, extra: Bytes)
    ensures Stable(ReadString(buf), ReadString(buf + extra), extra)
  {
    hide ReadUint, ValidUtf8;
    UintStable(buf, 8, extra);
    var r := ReadUint(buf, 8);
    if r.Done? && r.value <= |r.rest| {
      assert (r.rest + extra)[..r.value] == r.rest[..r.value];
      assert (r.rest + extra)[r.value..] == r.rest[r.value..] + extra;
    }
  }

  lemma {:induction false} ValueStable(buf: Bytes, vtype: nat, extra: Bytes)
    ensures Stable(ReadValue(buf, vtype), ReadValue(buf + extra, vtype), extra)
    decreases |buf|, 0
  {
    hide ReadUint, ReadString, ReadItems;
    if Width(vtype) > 0 {
      UintStable(buf, Width(vtype), extra);
    } else if vtype == STRING {
      StringStable(buf, extra);
    } else if vtype == ARRAY {
      UintStable(buf, 4, extra);
      var elem := ReadUint(buf, 4);
      if elem.Done? {
        UintStable(elem.rest, 8, extra);
        var count := ReadUint(elem.rest, 8);
        if count.Done? { ItemsStable(count.rest, elem.value, count.value, extra); }
      }
    }
  }

  lemma {:induction false} ItemsStable(buf: Bytes, elem: nat, count: nat, extra: Bytes)
    ensures Stable(ReadItems(buf, elem, count), ReadItems(buf + extra, elem, count), extra)
    decreases |buf|, 1
  {
    hide ReadValue;
    if count > 0 {
      ValueStable(buf, elem, extra);
      var r := ReadValue(buf, elem);
      if r.Done? { ItemsStable(r.rest, elem, count - 1, extra); }
    }
  }

  lemma PairStable(buf: Bytes, extra: Bytes)
    ensures Stable(ReadPair(buf), ReadPair(buf + extra), extra)
  {
    hide ReadUint, ReadString, ReadValue;
    StringStable(buf, extra);
    var key := ReadString(buf);
    if key.Done? {
      UintStable(key.rest, 4, extra);
      var vtype := ReadUint(key.rest, 4);
      if vtype.Done? { ValueStable(vtype.rest, vtype.value, extra); }
    }
  }

  lemma {:induction false} PairsStable(buf: Bytes, count: nat, m: map<Bytes, MetaValue>, extra: Bytes)
    ensures Stable(ReadPairs(buf, count, m), ReadPairs(buf + extra, count, m), extra)
    decreases count
  {
    hide ReadPair;
    if count > 0 {
      PairStable(buf, extra);
      var r := ReadPair(buf);
      if r.Done? { PairsStable(r.rest, count - 1, m[r.value.0 := r.value.1], extra); }
    }
  }

  lemma HeaderStable(buf: Bytes, extra: Bytes)
    ensures Stable(ReadHeader(buf), ReadHeader(buf + extra), extra)
  {
    hide ReadUint;
    UintStable(buf, 4, extra);
    var magic := ReadUint(buf, 4);
    if magic.Done? {
      UintStable(magic.rest, 4, extra);
      var version := ReadUint(magic.rest, 4);
      if version.Done? {
        UintStable(version.rest, 8, extra);
        var tensors := ReadUint(version.rest, 8);
        if tensors.Done? { UintStable(tensors.rest, 8, extra); }
      }
    }
  }

  /** A result other than end of data does not depend on what follows the bytes that were read. */
  lemma AppendingChangesNothing(bytes: Bytes, extra: Bytes)
    requires ParseFile(bytes) != Err(UnexpectedEof)
    ensures ParseFile(bytes + extra) == ParseFile(bytes)
  {
    hide ReadHeader, ReadPairs;
    HeaderStable(bytes, extra);
    var h := ReadHeader(bytes);
    if h.Done? { PairsStable(h.rest, h.value.kvCount, map[], extra); }
  }

  lemma {:induction false} ItemsNeedBytes(buf: Bytes, elem: nat, count: nat)
    requires ReadItems(buf, elem, count).Done?
    ensures count + |ReadItems(buf, elem, count).rest| <= |buf|
    decreases count
  {
    hide ReadValue;
    if count > 0 { ItemsNeedBytes(ReadValue(buf, elem).rest, elem, count - 1); }
  }

  lemma {:induction false} PairsNeedBytes(buf: Bytes, count: nat, m: map<Bytes, MetaValue>)
    requires ReadPairs(buf, count, m).Done?
    ensures 13 * count + |ReadPairs(buf, count, m).rest| <= |buf|
    decreases count
  {
    hide ReadPair;
    if count > 0 {
      var r := ReadPair(buf);
      PairsNeedBytes(r.rest, count - 1, m[r.value.0 := r.value.1]);
    }
  }

  /** No file can claim more pairs than its length has room for and still be accepted. */
  lemma CountsBounded(bytes: Bytes)
    requires ParseFile(bytes).Ok?
    ensures ReadHeader(bytes).Done? && 24 + 13 * ReadHeader(bytes).value.kvCount <= |bytes|
    ensures |ParseFile(bytes).value.metadata| <= ReadHeader(bytes).value.kvCount
  {
    hide ReadHeader, ReadPairs;
    var h := ReadHeader(bytes);
    PairsNeedBytes(h.rest, h.value.kvCount, map[]);
    KeysBounded(h.rest, h.value.kvCount, map[]);
    HeaderLength(bytes);
  }

  lemma HeaderLength(bytes: Bytes)
    requires ReadHeader(bytes).Done?
    ensures |ReadHeader(bytes).rest| + 24 == |bytes|
  {
  }

  lemma {:induction false} KeysBounded(buf: Bytes, count: nat, m: map<Bytes, MetaValue>)
    requires ReadPairs(buf, count, m).Done?
    ensures |ReadPairs(buf, count, m).value| <= |m| + count
    decreases count
  {
    hide ReadPair;
    if count > 0 {
      var r := ReadPair(buf);
      var m' := m[r.value.0 := r.value.1];
      assert |m'| <= |m| + 1 by { assert m'.Keys == m.Keys + {r.value.0}; }
      KeysBounded(r.rest, count - 1, m');
    }
  }
}
