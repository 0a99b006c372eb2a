/**
 The byte cursor through which cave-local-llm reads GGUF files: every read advances `pos`.
 */
module GgufCursor {
  import opened Machine
  import opened Text
  import opened Gguf

  /** The outcome of a cursor call, given what the reading function says of the bytes that were left. */
  ghost predicate Agrees<T>(p: Parse<T>, r: Result<T, GgufError>, rest: Bytes) {
    match p
    case Done(v, left) => r == Ok(v) && rest == left
    case Fail(e) => r == Err(e)
  }

  class Cursor {
    const buf: Bytes
    var pos: nat

    ghost predicate Valid()
      reads this
    {
      pos <= |buf|
    }

    ghost function Rest(): Bytes
      reads this
      requires Valid()
    {
      buf[pos..]
    }

    constructor (bytes: Bytes)
      ensures Valid() && buf == bytes && Rest() == bytes
    {
      buf := bytes;
      pos := 0;
    }

    method Take(n: nat) returns (r: Result<Bytes, GgufError>)
      requires Valid()
      modifies this
      ensures Valid() && Agrees(Gguf.Take(old(Rest()), n), r, Rest())
      ensures pos >= old(pos)
    {
      if pos + n > |buf| {
        return Err(UnexpectedEof);
      }
      r := Ok(buf[pos..pos + n]);
      assert buf[pos..][..n] == buf[pos..pos + n] && buf[pos..][n..] == buf[pos + n..];
      pos := pos + n;
    }

    method ReadUint(width: nat) returns (r: Result<nat, GgufError>)
      requires Valid()
      modifies this
      ensures Valid() && Agrees(Gguf.ReadUint(old(Rest()), width), r, Rest())
      ensures pos >= old(pos)
    {
      var b := Take(width);
      r := if b.Ok? then Ok(FromLe(b.value)) else Err(b.error);
    }

    method ReadString() returns (r: Result<Bytes, GgufError>)
      requires Valid()
      modifies this
      ensures Valid() && Agrees(Gguf.ReadString(old(Rest())), r, Rest())
      ensures pos >= old(pos)
    {
      var len := ReadUint(8);
      if len.Err? {
        return Err(len.error);
      }
      var b := Take(len.value);
      if b.Err? {
        return Err(b.error);
      }
      r := if ValidUtf8(b.value) then b else Err(InvalidUtf8);
    }

    method ReadValue(vtype: nat) returns (r: Result<MetaValue, GgufError>)
      requires Valid()
      modifies this
      ensures Valid() && Agrees(Gguf.ReadValue(old(Rest()), vtype), r, Rest())
      ensures pos >= old(pos)
      decreases |buf| - pos
    {
      hide Interpret, Gguf.ReadUint, Gguf.ReadString;
      if Width(vtype) > 0 {
        var raw := ReadUint(Width(vtype));
        r := if raw.Ok? then Ok(Interpret(vtype, raw.value)) else Err(raw.error);
      } else if vtype == STRING {
        var b := ReadString();
        r := if b.Ok? then Ok(String(b.value)) else Err(b.error);
      } else if vtype == ARRAY {
        ghost var start := pos;
        var elem := ReadUint(4);
        if elem.Err? {
          return Err(elem.error);
        }
        var count := ReadUint(8);
        if count.Err? {
          return Err(count.error);
        }
        assert pos == start + 12;
        var items := [];
        var k := 0;
        ghost var goal := ReadItems(Rest(), elem.value, count.value);
        AppendNone(goal);
        while k < count.value
          invariant 0 <= k <= count.value && Valid() && pos >= start + 12
          invariant goal == Append(items, ReadItems(Rest(), elem.value, count.value - k))
        {
          var v := ReadValue(elem.value);
          if v.Err? {
            return Err(v.error);
          }
          AppendOne(items, v.value, ReadItems(Rest(), elem.value, count.value - k - 1));
          items := items + [v.value];
          k := k + 1;
        }
        assert items + [] == items;
        r := Ok(Array(items));
      } else {
        r := Err(UnknownValueType(vtype));
      }
    }
  }

  function Append(vs: seq<MetaValue>, p: Parse<seq<MetaValue>>): Parse<seq<MetaValue>> {
    if p.Done? then Done(vs + p.value, p.rest) else p
  }

  lemma AppendOne(vs: seq<MetaValue>, v: MetaValue, p: Parse<seq<MetaValue>>)
    ensures Append(vs, Append([v], p)) == Append(vs + [v], p)
  {
    if p.Done? { assert vs + ([v] + p.value) == (vs + [v]) + p.value; }
  }

  lemma AppendNone(p: Parse<seq<MetaValue>>)
    ensures Append([], p) == p
  {
    if p.Done? { assert [] + p.value == p.value; }
  }

  method ReadHeaderFrom(cur: Cursor) returns (r: Result<Header, GgufError>)
    requires cur.Valid()
    modifies cur
    ensures cur.Valid() && Agrees(ReadHeader(old(cur.Rest())), r, cur.Rest())
  {
    hide FromLe;
    var magic := cur.ReadUint(4);
    if magic.Err? {
      return Err(magic.error);
    }
    if magic.value == MAGIC_BE {
      return Err(BigEndianUnsupported);
    }
    if magic.value != MAGIC {
      return Err(BadMagic(magic.value));
    }
    var version := cur.ReadUint(4);
    if version.Err? {
      return Err(version.error);
    }
    if version.value < 2 || version.value > 3 {
      return Err(UnsupportedVersion(version.value));
    }
    var tensorCount := cur.ReadUint(8);
    if tensorCount.Err? {
      return Err(tensorCount.error);
    }
    var kvCount := cur.ReadUint(8);
    if kvCount.Err? {
      return Err(kvCount.error);
    }
    return Ok(Header(version.value, tensorCount.value, kvCount.value));
  }

  method ReadPairFrom(cur: Cursor) returns (r: Result<(Bytes, MetaValue), GgufError>)
    requires cur.Valid()
    modifies cur
    ensures cur.Valid() && Agrees(ReadPair(old(cur.Rest())), r, cur.Rest())
  {
    hide FromLe, ReadValue;
    var key := cur.ReadString();
    if key.Err? {
      return Err(key.error);
    }
    var vtype := cur.ReadUint(4);
    if vtype.Err? {
      return Err(vtype.error);
    }
    var value := cur.ReadValue(vtype.value);
    if value.Err? {
      return Err(value.error);
    }
    return Ok((key.value, value.value));
  }

  method ReadPairsFrom(cur: Cursor, count: nat) returns (r: Result<map<Bytes, MetaValue>, GgufError>)
    requires cur.Valid()
    modifies cur
    ensures cur.Valid() && Agrees(ReadPairs(old(cur.Rest()), count, map[]), r, cur.Rest())
  {
    hide ReadPair;
    var metadata := map[];
    var k := 0;
    ghost var goal := ReadPairs(cur.Rest(), count, map[]);
    while k < count
      invariant 0 <= k <= count && cur.Valid()
      invariant goal == ReadPairs(cur.Rest(), count - k, metadata)
    {
      var pair := ReadPairFrom(cur);
      if pair.Err? {
        return Err(pair.error);
      }
      metadata := metadata[pair.value.0 := pair.value.1];
      k := k + 1;
    }
    return Ok(metadata);
  }

  method ParseBytes(bytes: Bytes) returns (r: Result<GgufFile, GgufError>)
    ensures r == ParseFile(bytes)
  {
    hide ReadHeader, ReadPairs;
    var cur := new Cursor(bytes);
    var header := ReadHeaderFrom(cur);
    if header.Err? {
      return Err(header.error);
    }
    var metadata := ReadPairsFrom(cur, header.value.kvCount);
    if metadata.Err? {
      return Err(metadata.error);
    }
    return Ok(GgufFile(header.value.version, header.value.tensorCount, metadata.value));
  }
}
