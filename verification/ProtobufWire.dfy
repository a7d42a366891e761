/** The Protocol Buffers wire format of the messages in protos. */
module ProtobufWire {
  import opened CBytes

  /** A field on the wire; other wire types than these two are read over. */
  datatype Field =
    | Length(number: nat, data: Bytes)
    | Number(number: nat, value: nat)
    | Other(number: nat)

  /** A field that the messages of this program have. */
  predicate Numbered(f: Field) {
    1 <= f.number < 16 && !f.Other?
  }

  /** Seven bits a byte, low ones first; the high bit says that more follow. */
  function Varint(n: nat): (s: Bytes)
    ensures |s| >= 1 && (n < 128 <==> |s| == 1) && (n < 16384 <==> |s| <= 2)
  {
    if n < 128 then [n] else [128 + n % 128] + Varint(n / 128)
  }

  /** The value of the varint at position p and the position after it. */
  function ReadVarint(s: Bytes, p: nat): (r: Option<(nat, nat)>)
    requires p <= |s|
    ensures r.Some? ==> p < r.value.1 <= |s|
    decreases |s| - p
  {
    if p == |s| then None
    else if s[p] < 128 then Some((s[p], p + 1))
    else
      var r := ReadVarint(s, p + 1);
      if r.None? then None else Some((s[p] - 128 + 128 * r.value.0, r.value.1))
  }

  lemma {:induction false} VarintComesBack(n: nat, s: Bytes, p: nat)
    requires HasAt(s, p, Varint(n))
    ensures ReadVarint(s, p) == Some((n, p + |Varint(n)|))
    decreases n
  {
    if n < 128 {
      assert s[p] == Varint(n)[0];
    } else {
      assert s[p] == Varint(n)[0];
      HasAtSplit(s, p, [128 + n % 128], Varint(n / 128));
      VarintComesBack(n / 128, s, p + 1);
    }
  }

  function Encode(f: Field): (s: Bytes)
    requires Numbered(f)
    ensures |s| > 0
  {
    match f
    case Length(number, data) => Varint(number * 8 + 2) + Varint(|data|) + data
    case Number(number, value) => Varint(number * 8) + Varint(value)
  }

  predicate AllNumbered(fs: seq<Field>) {
    forall i :: 0 <= i < |fs| ==> Numbered(fs[i])
  }

  /** SerializeToArray: the fields one after the other. */
  function EncodeAll(fs: seq<Field>): Bytes
    requires AllNumbered(fs)
  {
    if fs == [] then [] else Encode(fs[0]) + EncodeAll(fs[1..])
  }

  /** The number and wire type at position p and the position after them. */
  function ReadKey(s: Bytes, p: nat): (r: Option<(nat, nat, nat)>)
    requires p < |s|
    ensures r.Some? ==> r.value.0 > 0 && r.value.1 < 8 && p < r.value.2 <= |s|
  {
    var v := ReadVarint(s, p);
    if v.None? || v.value.0 < 8 then None else Some((v.value.0 / 8, v.value.0 % 8, v.value.1))
  }

  /** One field at position p and the position after it; no message may end a group it has not begun. */
  function ReadField(s: Bytes, p: nat): (r: Option<(Field, nat)>)
    requires p < |s|
    ensures r.Some? ==> p < r.value.1 <= |s|
    decreases |s| - p, 0
  {
    var key := ReadKey(s, p);
    if key.None? then None
    else
      var (number, wire, q) := key.value;
      if wire == 0 then
        var v := ReadVarint(s, q);
        if v.None? then None else Some((Number(number, v.value.0), v.value.1))
      else if wire == 1 then if q + 8 <= |s| then Some((Other(number), q + 8)) else None
      else if wire == 2 then
        var v := ReadVarint(s, q);
        if v.None? || v.value.1 + v.value.0 > |s| then None
        else Some((Length(number, s[v.value.1..v.value.1 + v.value.0]), v.value.1 + v.value.0))
      else if wire == 3 then
        var end := ReadGroup(s, q, number);
        if end.None? then None else Some((Other(number), end.value))
      else if wire == 5 then if q + 4 <= |s| then Some((Other(number), q + 4)) else None
      else None
  }

  /** The position after the end of a group, whose fields are read over. */
  function ReadGroup(s: Bytes, p: nat, number: nat): (r: Option<nat>)
    requires p <= |s|
    ensures r.Some? ==> p < r.value <= |s|
    decreases |s| - p, 1
  {
    if p == |s| then None
    else
      var key := ReadKey(s, p);
      if key.Some? && key.value.1 == 4 then if key.value.0 == number then Some(key.value.2) else None
      else
        var f := ReadField(s, p);
        if f.None? then None else ReadGroup(s, f.value.1, number)
  }

  /** ParseFromArray: every field up to the end. */
  function ReadAll(s: Bytes, p: nat): Option<seq<Field>>
    requires p <= |s|
    decreases |s| - p
  {
    if p == |s| then Some([])
    else
      var f := ReadField(s, p);
      if f.None? then None
      else
        var rest := ReadAll(s, f.value.1);
        if rest.None? then None else Some([f.value.0] + rest.value)
  }

  lemma SliceIs(s: Bytes, p: nat, x: Bytes)
    requires HasAt(s, p, x)
    ensures s[p..p + |x|] == x
  {
  }

  lemma KeyComesBack(number: nat, wire: nat, s: Bytes, p: nat)
    requires 1 <= number < 16 && wire < 8 && HasAt(s, p, Varint(number * 8 + wire))
    ensures p < |s| && ReadKey(s, p) == Some((number, wire, p + 1))
  {
    VarintComesBack(number * 8 + wire, s, p);
  }

  lemma FieldComesBack(f: Field, s: Bytes, p: nat)
    requires Numbered(f) && HasAt(s, p, Encode(f))
    ensures p < |s| && ReadField(s, p) == Some((f, p + |Encode(f)|))
  {
    hide Varint, ReadVarint, ReadKey, ReadGroup, HasAt;
    match f
    case Length(number, data) =>
      HasAtSplit3(s, p, Varint(number * 8 + 2), Varint(|data|), data);
      KeyComesBack(number, 2, s, p);
      VarintComesBack(|data|, s, p + 1);
      SliceIs(s, p + 1 + |Varint(|data|)|, data);
    case Number(number, value) =>
      HasAtSplit(s, p, Varint(number * 8), Varint(value));
      KeyComesBack(number, 0, s, p);
      VarintComesBack(value, s, p + 1);
  }

  lemma {:induction false} FieldsComeBackFrom(fs: seq<Field>, s: Bytes, p: nat)
    requires AllNumbered(fs) && HasAt(s, p, EncodeAll(fs)) && p + |EncodeAll(fs)| == |s|
    ensures ReadAll(s, p) == Some(fs)
    decreases |fs|
  {
    hide Encode, ReadField, HasAt;
    if fs != [] {
      HasAtSplit(s, p, Encode(fs[0]), EncodeAll(fs[1..]));
      FieldComesBack(fs[0], s, p);
      FieldsComeBackFrom(fs[1..], s, p + |Encode(fs[0])|);
      assert [fs[0]] + fs[1..] == fs;
    }
  }

  /** What a message says is what its bytes are parsed back to. */
  lemma {:induction false} FieldsComeBack(fs: seq<Field>)
    requires AllNumbered(fs)
    ensures ReadAll(EncodeAll(fs), 0) == Some(fs)
  {
    FieldsComeBackFrom(fs, EncodeAll(fs), 0);
  }

  /** Fields of eight and of four bytes, which no message here has, are read over. */
  lemma FixedIsReadOver(number: nat, data: Bytes, s: Bytes, p: nat)
    requires 1 <= number < 16 && (|data| == 8 || |data| == 4)
    requires HasAt(s, p, Varint(number * 8 + if |data| == 8 then 1 else 5) + data)
    ensures p < |s| && ReadField(s, p) == Some((Other(number), p + 1 + |data|))
  {
    var wire := if |data| == 8 then 1 else 5;
    HasAtSplit(s, p, Varint(number * 8 + wire), data);
    KeyComesBack(number, wire, s, p);
    hide Varint, ReadVarint, ReadKey, ReadGroup;
  }

  lemma {:induction false} GroupEnds(number: nat, fs: seq<Field>, s: Bytes, p: nat)
    requires 1 <= number < 16 && AllNumbered(fs) && HasAt(s, p, EncodeAll(fs) + Varint(number * 8 + 4))
    ensures p <= |s| && ReadGroup(s, p, number) == Some(p + |EncodeAll(fs)| + 1)
    decreases |fs|
  {
    hide HasAt, Encode, EncodeAll, ReadField, ReadKey, Varint;
    if fs == [] {
      NoFields(number, s, p);
      KeyComesBack(number, 4, s, p);
    } else {
      FieldsCons(fs);
      Associative(Encode(fs[0]), EncodeAll(fs[1..]), Varint(number * 8 + 4));
      HasAtSplit(s, p, Encode(fs[0]), EncodeAll(fs[1..]) + Varint(number * 8 + 4));
      FieldComesBack(fs[0], s, p);
      KeyOfField(fs[0], s, p);
      GroupEnds(number, fs[1..], s, p + |Encode(fs[0])|);
    }
  }

  lemma NoFields(number: nat, s: Bytes, p: nat)
    requires HasAt(s, p, EncodeAll([]) + Varint(number * 8 + 4))
    ensures EncodeAll([]) == [] && HasAt(s, p, Varint(number * 8 + 4))
  {
    assert [] + Varint(number * 8 + 4) == Varint(number * 8 + 4);
  }

  lemma FieldsCons(fs: seq<Field>)
    requires fs != [] && AllNumbered(fs)
    ensures EncodeAll(fs) == Encode(fs[0]) + EncodeAll(fs[1..])
  {
  }

  /** The key of a field is not that of a group's end. */
  lemma KeyOfField(f: Field, s: Bytes, p: nat)
    requires Numbered(f) && HasAt(s, p, Encode(f))
    ensures p < |s| && ReadKey(s, p).Some? && ReadKey(s, p).value.1 != 4
  {
    hide Varint, ReadVarint, ReadKey, HasAt;
    match f
    case Length(number, data) =>
      HasAtSplit3(s, p, Varint(number * 8 + 2), Varint(|data|), data);
      KeyComesBack(number, 2, s, p);
    case Number(number, value) =>
      HasAtSplit(s, p, Varint(number * 8), Varint(value));
      KeyComesBack(number, 0, s, p);
  }

  /** So is a group, with all the fields in it. */
  lemma GroupIsReadOver(number: nat, fs: seq<Field>, s: Bytes, p: nat)
    requires 1 <= number < 16 && AllNumbered(fs)
    requires HasAt(s, p, Varint(number * 8 + 3) + (EncodeAll(fs) + Varint(number * 8 + 4)))
    ensures p < |s| && ReadField(s, p) == Some((Other(number), p + 2 + |EncodeAll(fs)|))
  {
    HasAtSplit(s, p, Varint(number * 8 + 3), EncodeAll(fs) + Varint(number * 8 + 4));
    KeyComesBack(number, 3, s, p);
    hide ReadVarint, ReadKey, ReadGroup, EncodeAll, HasAt;
    GroupEnds(number, fs, s, p + 1);
  }
}
