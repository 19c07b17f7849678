// The JSON documents the engine writes with json.dumps / json.dump and reads back
// with json.loads / json.load. Values keep JSON's structure (null, integers,
// strings, arrays, objects whose members keep their written order); the byte
// layout is a tagged, length-prefixed form instead of JSON's punctuation and
// spacing, so that reading back what was written can be proved.
module Json {
  import opened Base

  datatype Json =
    | Null
    | Int(i: int)
    | Str(s: string)
    | Arr(items: seq<Json>)
    | Obj(members: seq<(string, Json)>)

  // ---- natural numbers: seven bits per byte, high bit set on all but the last ----

  function NatBytes(n: nat): (r: Bytes)
    decreases n
  {
    if n < 128 then [n as byte]
    else [(128 + n % 128) as byte] + NatBytes(n / 128)
  }

  function ReadNat(b: Bytes): (r: Option<(nat, Bytes)>)
    ensures r.Some? ==> |r.value.1| < |b|
  {
    if b == [] then None
    else if b[0] < 128 then Some((b[0] as nat, b[1..]))
    else
      match ReadNat(b[1..])
      case None => None
      case Some((m, rest)) => Some(((b[0] as int - 128) + 128 * m, rest))
  }

  lemma {:induction false} NatRoundTrip(n: nat, rest: Bytes)
    ensures ReadNat(NatBytes(n) + rest) == Some((n, rest))
    decreases n
  {
    if n >= 128 {
      var b := NatBytes(n) + rest;
      assert b[1..] == NatBytes(n / 128) + rest;
      NatRoundTrip(n / 128, rest);
    }
  }

  // ---- text: length, then one natural number per code point ----

  predicate IsScalar(n: nat) {
    n < 0xD800 || 0xE000 <= n < 0x11_0000
  }

  function CharsBytes(s: string): Bytes {
    if s == [] then [] else NatBytes(s[0] as nat) + CharsBytes(s[1..])
  }

  function ReadChars(b: Bytes, count: nat): (r: Option<(string, Bytes)>)
    ensures r.Some? ==> |r.value.1| <= |b|
    decreases count
  {
    if count == 0 then Some(([], b))
    else
      match ReadNat(b)
      case None => None
      case Some((n, rest)) =>
        if !IsScalar(n) then None
        else
          match ReadChars(rest, count - 1)
          case None => None
          case Some((s, rest')) => Some(([n as char] + s, rest'))
  }

  function TextBytes(s: string): Bytes {
    NatBytes(|s|) + CharsBytes(s)
  }

  function ReadText(b: Bytes): (r: Option<(string, Bytes)>)
    ensures r.Some? ==> |r.value.1| < |b|
  {
    match ReadNat(b)
    case None => None
    case Some((n, rest)) => ReadChars(rest, n)
  }

  lemma {:induction false} CharsRoundTrip(s: string, rest: Bytes)
    ensures ReadChars(CharsBytes(s) + rest, |s|) == Some((s, rest))
    decreases |s|
  {
    if s != [] {
      var c := s[0] as nat;
      var tail := CharsBytes(s[1..]) + rest;
      assert CharsBytes(s) + rest == NatBytes(c) + tail;
      NatRoundTrip(c, tail);
      CharsRoundTrip(s[1..], rest);
      assert IsScalar(c) && c as char == s[0];
      assert ReadChars(tail, |s| - 1) == Some((s[1..], rest));
      assert [c as char] + s[1..] == s;
    } else {
      assert CharsBytes(s) + rest == rest;
    }
  }

  lemma TextRoundTrip(s: string, rest: Bytes)
    ensures ReadText(TextBytes(s) + rest) == Some((s, rest))
  {
    assert TextBytes(s) + rest == NatBytes(|s|) + (CharsBytes(s) + rest);
    NatRoundTrip(|s|, CharsBytes(s) + rest);
    CharsRoundTrip(s, rest);
  }

  // ---- values ----

  /** Integers as natural numbers: 0, -1, 1, -2, 2, ... */
  function IntCode(i: int): nat {
    if i >= 0 then 2 * i else -2 * i - 1
  }

  function CodeInt(z: nat): int {
    if z % 2 == 0 then z / 2 else -((z + 1) / 2)
  }

  function ValueBytes(j: Json): Bytes
    decreases j, 1
  {
    match j
    case Null => [0]
    case Int(i) => [1] + NatBytes(IntCode(i))
    case Str(s) => [2] + TextBytes(s)
    case Arr(items) => [3] + NatBytes(|items|) + ItemsBytes(j, 0)
    case Obj(members) => [4] + NatBytes(|members|) + MembersBytes(j, 0)
  }

  /** The items of array `j` from position `from` on. */
  function ItemsBytes(j: Json, from: nat): Bytes
    requires j.Arr? && from <= |j.items|
    decreases j, 0, |j.items| - from
  {
    if from == |j.items| then []
    else ValueBytes(j.items[from]) + ItemsBytes(j, from + 1)
  }

  /** The members of object `j` from position `from` on. */
  function MembersBytes(j: Json, from: nat): Bytes
    requires j.Obj? && from <= |j.members|
    decreases j, 0, |j.members| - from
  {
    if from == |j.members| then []
    else
      var m := j.members[from];
      TextBytes(m.0) + ValueBytes(m.1) + MembersBytes(j, from + 1)
  }

  function ReadValue(b: Bytes): (r: Option<(Json, Bytes)>)
    ensures r.Some? ==> |r.value.1| < |b|
    decreases |b|, 0
  {
    if b == [] then None
    else if b[0] == 0 then Some((Null, b[1..]))
    else if b[0] == 1 then
      match ReadNat(b[1..])
      case None => None
      case Some((z, rest)) => Some((Int(CodeInt(z)), rest))
    else if b[0] == 2 then
      match ReadText(b[1..])
      case None => None
      case Some((s, rest)) => Some((Str(s), rest))
    else if b[0] == 3 then
      match ReadNat(b[1..])
      case None => None
      case Some((n, rest)) =>
        match ReadItems(rest, n)
        case None => None
        case Some((items, rest')) => Some((Arr(items), rest'))
    else if b[0] == 4 then
      match ReadNat(b[1..])
      case None => None
      case Some((n, rest)) =>
        match ReadMembers(rest, n)
        case None => None
        case Some((members, rest')) => Some((Obj(members), rest'))
    else None
  }

  function ReadItems(b: Bytes, n: nat): (r: Option<(seq<Json>, Bytes)>)
    ensures r.Some? ==> |r.value.1| <= |b|
    decreases |b|, 1, n
  {
    if n == 0 then Some(([], b))
    else
      match ReadValue(b)
      case None => None
      case Some((j, rest)) =>
        match ReadItems(rest, n - 1)
        case None => None
        case Some((js, rest')) => Some(([j] + js, rest'))
  }

  function ReadMembers(b: Bytes, n: nat): (r: Option<(seq<(string, Json)>, Bytes)>)
    ensures r.Some? ==> |r.value.1| <= |b|
    decreases |b|, 1, n
  {
    if n == 0 then Some(([], b))
    else
      match ReadText(b)
      case None => None
      case Some((k, rest)) =>
        match ReadValue(rest)
        case None => None
        case Some((v, rest')) =>
          match ReadMembers(rest', n - 1)
          case None => None
          case Some((ms, rest'')) => Some(([(k, v)] + ms, rest''))
  }

  lemma {:induction false} ValueRoundTrip(j: Json, rest: Bytes)
    ensures ReadValue(ValueBytes(j) + rest) == Some((j, rest))
    decreases j, 1
  {
    match j
    case Null =>
    case Int(i) => IntRoundTrip(i, rest);
    case Str(s) => StrRoundTrip(s, rest);
    case Arr(_) => ArrRoundTrip(j, rest);
    case Obj(_) => ObjRoundTrip(j, rest);
  }

  lemma IntRoundTrip(i: int, rest: Bytes)
    ensures ReadValue(ValueBytes(Int(i)) + rest) == Some((Int(i), rest))
  {
    var b := ValueBytes(Int(i)) + rest;
    assert b == [1] + (NatBytes(IntCode(i)) + rest);
    NatRoundTrip(IntCode(i), rest);
    assert CodeInt(IntCode(i)) == i;
  }

  lemma StrRoundTrip(s: string, rest: Bytes)
    ensures ReadValue(ValueBytes(Str(s)) + rest) == Some((Str(s), rest))
  {
    var b := ValueBytes(Str(s)) + rest;
    assert b == [2] + (TextBytes(s) + rest);
    TextRoundTrip(s, rest);
  }

  lemma {:induction false} ArrRoundTrip(j: Json, rest: Bytes)
    requires j.Arr?
    ensures ReadValue(ValueBytes(j) + rest) == Some((j, rest))
    decreases j, 0, |j.items| + 1
  {
    var b := ValueBytes(j) + rest;
    var tail := ItemsBytes(j, 0) + rest;
    assert b == [3] + (NatBytes(|j.items|) + tail);
    assert b[0] == 3 && b[1..] == NatBytes(|j.items|) + tail;
    NatRoundTrip(|j.items|, tail);
    ItemsRoundTrip(j, 0, rest);
    assert j.items[0..] == j.items;
  }

  lemma {:induction false} ObjRoundTrip(j: Json, rest: Bytes)
    requires j.Obj?
    ensures ReadValue(ValueBytes(j) + rest) == Some((j, rest))
    decreases j, 0, |j.members| + 1
  {
    var b := ValueBytes(j) + rest;
    var tail := MembersBytes(j, 0) + rest;
    assert b == [4] + (NatBytes(|j.members|) + tail);
    assert b[0] == 4 && b[1..] == NatBytes(|j.members|) + tail;
    NatRoundTrip(|j.members|, tail);
    MembersRoundTrip(j, 0, rest);
    assert j.members[0..] == j.members;
  }

  lemma {:induction false} ItemsRoundTrip(j: Json, from: nat, rest: Bytes)
    requires j.Arr? && from <= |j.items|
    ensures ReadItems(ItemsBytes(j, from) + rest, |j.items| - from) == Some((j.items[from..], rest))
    decreases j, 0, |j.items| - from
  {
    if from < |j.items| {
      var tail := ItemsBytes(j, from + 1) + rest;
      assert ItemsBytes(j, from) + rest == ValueBytes(j.items[from]) + tail;
      ValueRoundTrip(j.items[from], tail);
      ItemsRoundTrip(j, from + 1, rest);
      assert [j.items[from]] + j.items[from + 1..] == j.items[from..];
    } else {
      assert ItemsBytes(j, from) + rest == rest;
      assert j.items[from..] == [];
    }
  }

  lemma {:induction false} MembersRoundTrip(j: Json, from: nat, rest: Bytes)
    requires j.Obj? && from <= |j.members|
    ensures ReadMembers(MembersBytes(j, from) + rest, |j.members| - from) == Some((j.members[from..], rest))
    decreases j, 0, |j.members| - from
  {
    if from < |j.members| {
      var m := j.members[from];
      var tail := MembersBytes(j, from + 1) + rest;
      assert MembersBytes(j, from) + rest == TextBytes(m.0) + (ValueBytes(m.1) + tail);
      TextRoundTrip(m.0, ValueBytes(m.1) + tail);
      ValueRoundTrip(m.1, tail);
      MembersRoundTrip(j, from + 1, rest);
      assert [m] + j.members[from + 1..] == j.members[from..];
    } else {
      assert MembersBytes(j, from) + rest == rest;
      assert j.members[from..] == [];
    }
  }

  // ---- documents ----

  /** json.dumps(value).encode(): the bytes written for one document, which
      json.loads reads back as the same document. */
  function Dumps(j: Json): (r: Bytes)
    ensures r != [] && Loads(r) == Some(j)
  {
    ValueRoundTrip(j, []);
    assert ValueBytes(j) + [] == ValueBytes(j);
    ValueBytes(j)
  }

  /** json.loads(bytes): a document, or None where the source raises
      JSONDecodeError (malformed input or trailing data); an empty file is not
      a document. */
  function Loads(b: Bytes): (r: Option<Json>)
    ensures b == [] ==> r == None
  {
    match ReadValue(b)
    case Some((j, rest)) => if rest == [] then Some(j) else None
    case None => None
  }
}
