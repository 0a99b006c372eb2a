/**
 The GGUF header and metadata reader of cave-local-llm.

 Floating-point values are kept as their bits. `usize` is taken to be 64 bits wide.
 */
module Gguf {
  import opened Machine
  import opened Text

  datatype GgufError =
    | BadMagic(magic: nat)
    | BigEndianUnsupported
    | UnsupportedVersion(version: nat)
    | UnexpectedEof
    | InvalidUtf8
    | UnknownValueType(id: nat)

  datatype MetaValue =
    | U8(u8: nat) | I8(i8: int) | U16(u16: nat) | I16(i16: int) | U32(u32: nat) | I32(i32: int)
    | U64(u64: nat) | I64(i64: int) | F32(bits32: nat) | F64(bits64: nat)
    | Bool(b: bool) | String(bytes: Bytes) | Array(items: seq<MetaValue>)

  datatype GgufFile = GgufFile(version: nat, tensorCount: nat, metadata: map<Bytes, MetaValue>)

  const MAGIC: nat := 0x4655_4747
  const MAGIC_BE: nat := 0x4747_5546

  // ----- Little-endian numbers and UTF-8 -----

  function FromLe(b: Bytes): nat {
    if b == [] then 0 else b[0] + 256 * FromLe(b[1..])
  }

  /** Length of the well-formed UTF-8 sequence `b` starts with, 0 when it starts with none. */
  function Utf8Len(b: Bytes): (n: nat)
    ensures n <= |b|
  {
    if |b| >= 1 && b[0] < 0x80 then 1
    else if |b| >= 2 && 0xC2 <= b[0] <= 0xDF && 0x80 <= b[1] <= 0xBF then 2
    else if |b| >= 3 && 0xE0 <= b[0] <= 0xEF && 0x80 <= b[2] <= 0xBF
            && (if b[0] == 0xE0 then 0xA0 else 0x80) <= b[1] <= (if b[0] == 0xED then 0x9F else 0xBF) then 3
    else if |b| >= 4 && 0xF0 <= b[0] <= 0xF4 && 0x80 <= b[2] <= 0xBF && 0x80 <= b[3] <= 0xBF
            && (if b[0] == 0xF0 then 0x90 else 0x80) <= b[1] <= (if b[0] == 0xF4 then 0x8F else 0xBF) then 4
    else 0
  }

  predicate ValidUtf8(b: Bytes) {
    b == [] || (Utf8Len(b) > 0 && ValidUtf8(b[Utf8Len(b)..]))
  }

  // ----- Reading, as a function of the bytes that are left -----

  datatype Parse<+T> = Done(value: T, rest: Bytes) | Fail(error: GgufError)

  function Take(buf: Bytes, n: nat): Parse<Bytes> {
    if n <= |buf| then Done(buf[..n], buf[n..]) else Fail(UnexpectedEof)
  }

  function ReadUint(buf: Bytes, width: nat): (r: Parse<nat>)
    ensures r.Done? ==> |r.rest| + width == |buf|
  {
    match Take(buf, width)
    case Done(b, rest) => Done(FromLe(b), rest)
    case Fail(e) => Fail(e)
  }

  function ReadString(buf: Bytes): (r: Parse<Bytes>)
    ensures r.Done? ==> |r.rest| + 8 <= |buf|
  {
    match ReadUint(buf, 8)
    case Fail(e) => Fail(e)
    case Done(len, rest) =>
      match Take(rest, len)
      case Fail(e) => Fail(e)
      case Done(b, rest') => if ValidUtf8(b) then Done(b, rest') else Fail(InvalidUtf8)
  }

  const STRING: nat := 8
  const ARRAY: nat := 9

  /** Byte width of the fixed-size types, 0 for every other type id. */
  function Width(vtype: nat): (w: nat) {
    if vtype == 0 || vtype == 1 || vtype == 7 then 1
    else if vtype == 2 || vtype == 3 then 2
    else if vtype == 4 || vtype == 5 || vtype == 6 then 4
    else if vtype == 10 || vtype == 11 || vtype == 12 then 8
    else 0
  }

  /** The cast of an unsigned number below `2 * half` to the signed type of the same width. */
  function Signed(raw: nat, half: nat): int {
    if raw < half then raw else raw - 2 * half
  }

  function Interpret(vtype: nat, raw: nat): MetaValue
    requires Width(vtype) > 0
  {
    match vtype
    case 0 => U8(raw)
    case 1 => I8(Signed(raw, 0x80))
    case 2 => U16(raw)
    case 3 => I16(Signed(raw, 0x8000))
    case 4 => U32(raw)
    case 5 => I32(Signed(raw, 0x8000_0000))
    case 6 => F32(raw)
    case 7 => Bool(raw != 0)
    case 10 => U64(raw)
    case 11 => I64(Signed(raw, 0x8000_0000_0000_0000))
    case 12 => F64(raw)
  }

  function ReadValue(buf: Bytes, vtype: nat): (r: Parse<MetaValue>)
    ensures r.Done? ==> |r.rest| < |buf|
    decreases |buf|, 0
  {
    if Width(vtype) > 0 then
      match ReadUint(buf, Width(vtype))
      case Fail(e) => Fail(e)
      case Done(raw, rest) => Done(Interpret(vtype, raw), rest)
    else if vtype == STRING then
      match ReadString(buf)
      case Fail(e) => Fail(e)
      case Done(b, rest) => Done(String(b), rest)
    else if vtype == ARRAY then
      match ReadUint(buf, 4)
      case Fail(e) => Fail(e)
      case Done(elem, rest) =>
        match ReadUint(rest, 8)
        case Fail(e) => Fail(e)
        case Done(count, rest') =>
          match ReadItems(rest', elem, count)
          case Fail(e) => Fail(e)
          case Done(items, rest'') => Done(Array(items), rest'')
    else Fail(UnknownValueType(vtype))
  }

  function ReadItems(buf: Bytes, elem: nat, count: nat): (r: Parse<seq<MetaValue>>)
    ensures r.Done? ==> |r.rest| <= |buf|
    decreases |buf|, 1
  {
    if count == 0 then Done([], buf)
    else
      match ReadValue(buf, elem)
      case Fail(e) => Fail(e)
      case Done(v, rest) =>
        match ReadItems(rest, elem, count - 1)
        case Fail(e) => Fail(e)
        case Done(vs, rest') => Done([v] + vs, rest')
  }

  function ReadPair(buf: Bytes): (r: Parse<(Bytes, MetaValue)>)
    ensures r.Done? ==> |r.rest| + 13 <= |buf|
  {
    match ReadString(buf)
    case Fail(e) => Fail(e)
    case Done(key, rest) =>
      match ReadUint(rest, 4)
      case Fail(e) => Fail(e)
      case Done(vtype, rest') =>
        match ReadValue(rest', vtype)
        case Fail(e) => Fail(e)
        case Done(v, rest'') => Done((key, v), rest'')
  }

  function ReadPairs(buf: Bytes, count: nat, metadata: map<Bytes, MetaValue>): Parse<map<Bytes, MetaValue>>
    decreases count
  {
    if count == 0 then Done(metadata, buf)
    else
      match ReadPair(buf)
      case Fail(e) => Fail(e)
      case Done((key, v), rest) => ReadPairs(rest, count - 1, metadata[key := v])
  }

  datatype Header = Header(version: nat, tensorCount: nat, kvCount: nat)

  function ReadHeader(buf: Bytes): (r: Parse<Header>)
    ensures r.Done? ==> |r.rest| + 24 == |buf|
  {
    match ReadUint(buf, 4)
    case Fail(e) => Fail(e)
    case Done(magic, rest) =>
      if magic == MAGIC_BE then Fail(BigEndianUnsupported)
      else if magic != MAGIC then Fail(BadMagic(magic))
      else
        match ReadUint(rest, 4)
        case Fail(e) => Fail(e)
        case Done(version, rest') =>
          if version < 2 || version > 3 then Fail(UnsupportedVersion(version))
          else
            match ReadUint(rest', 8)
            case Fail(e) => Fail(e)
            case Done(tensorCount, rest'') =>
              match ReadUint(rest'', 8)
              case Fail(e) => Fail(e)
              case Done(kvCount, rest''') => Done(Header(version, tensorCount, kvCount), rest''')
  }

  function ParseFile(bytes: Bytes): Result<GgufFile, GgufError> {
    match ReadHeader(bytes)
    case Fail(e) => Err(e)
    case Done(Header(version, tensorCount, kvCount), rest) =>
      match ReadPairs(rest, kvCount, map[])
      case Fail(e) => Err(e)
      case Done(metadata, _) => Ok(GgufFile(version, tensorCount, metadata))
  }
}
