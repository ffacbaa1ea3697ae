/** Boxes of ISO/IEC 14496-12: how one is laid out, and the walks that find them again. */
module Fmp4Boxes {
  import opened Machine

  const MOOF: seq<byte> := [0x6d, 0x6f, 0x6f, 0x66]
  const MFHD: seq<byte> := [0x6d, 0x66, 0x68, 0x64]
  const MDAT: seq<byte> := [0x6d, 0x64, 0x61, 0x74]
  const TRAF: seq<byte> := [0x74, 0x72, 0x61, 0x66]
  const TFHD: seq<byte> := [0x74, 0x66, 0x68, 0x64]
  const TFDT: seq<byte> := [0x74, 0x66, 0x64, 0x74]
  const TRUN: seq<byte> := [0x74, 0x72, 0x75, 0x6e]

  /** A size that leaves 32 bits is written as the largest. */
  function BoxSize(n: nat): u32 { Min(n, U32_MAX) }

  function Box(name: seq<byte>, payload: seq<byte>): (b: seq<byte>)
    requires |name| == 4
    ensures |b| == 8 + |payload|
  {
    BeBytes(BoxSize(8 + |payload|), 4) + name + payload
  }

  function FullBox(name: seq<byte>, version: byte, flags: nat, payload: seq<byte>): (b: seq<byte>)
    requires |name| == 4
    ensures |b| == 12 + |payload|
  {
    Box(name, [version] + BeBytes(flags, 3) + payload)
  }

  /** The box a byte string starts with. */
  datatype Parsed = Parsed(name: seq<byte>, payload: seq<byte>, size: nat)

  function FirstBox(b: seq<byte>): (r: Option<Parsed>)
    ensures r.Some? ==> 8 <= r.value.size <= |b| && |r.value.payload| == r.value.size - 8
  {
    if |b| < 8 then None else
      var size := BeUint(b[..4]);
      if size < 8 || size > |b| then None else Some(Parsed(b[4..8], b[8..size], size))
  }

  lemma {:induction false} Pow256Is()
    ensures Pow256(3) == 0x100_0000 && Pow256(4) == 0x1_0000_0000 && Pow256(8) == 0x1_0000_0000_0000_0000
  {
    assert Pow256(1) == 256 && Pow256(2) == 0x1_0000 && Pow256(5) == 0x100_0000_0000;
    assert Pow256(6) == 0x1_0000_0000_0000 && Pow256(7) == 0x100_0000_0000_0000;
  }

  lemma {:induction false} Slices(a: seq<byte>, b: seq<byte>, c: seq<byte>, d: seq<byte>)
    requires |a| == 4 && |b| == 4
    ensures var s := a + b + c + d; s[..4] == a && s[4..8] == b && s[8..8 + |c|] == c && s[8 + |c|..] == d
  {
  }

  /** A written box parses back, whatever follows it. */
  lemma {:induction false} BoxParses(name: seq<byte>, payload: seq<byte>, rest: seq<byte>)
    requires |name| == 4 && 8 + |payload| <= U32_MAX
    ensures FirstBox(Box(name, payload) + rest) == Some(Parsed(name, payload, 8 + |payload|))
    ensures (Box(name, payload) + rest)[8 + |payload|..] == rest
  {
    Pow256Is();
    BeRoundTrip(8 + |payload|, 4);
    Slices(BeBytes(8 + |payload|, 4), name, payload, rest);
  }

  // ----- the walks -----

  function Shifted(size: nat, offset: Option<nat>): Option<nat> {
    match offset case None => None case Some(o) => Some(size + o)
  }

  /** Where the first box of that name starts; nothing when a box before it is malformed. */
  function Find(b: seq<byte>, name: seq<byte>): Option<nat>
    decreases |b|
  {
    match FirstBox(b)
    case None => None
    case Some(p) => if p.name == name then Some(0) else Shifted(p.size, Find(b[p.size..], name))
  }

  /** The payload of the first box of that name. */
  function Child(b: seq<byte>, name: seq<byte>): Option<seq<byte>>
    decreases |b|
  {
    match FirstBox(b)
    case None => None
    case Some(p) => if p.name == name then Some(p.payload) else Child(b[p.size..], name)
  }

  function Listed(found: seq<seq<byte>>, rest: Option<seq<seq<byte>>>): Option<seq<seq<byte>>> {
    match rest case None => None case Some(more) => Some(found + more)
  }

  /** The payloads of all boxes of that name; nothing when any box is malformed. Fewer than 8 bytes end the list. */
  function Children(b: seq<byte>, name: seq<byte>): Option<seq<seq<byte>>>
    decreases |b|
  {
    if |b| < 8 then Some([])
    else match FirstBox(b)
      case None => None
      case Some(p) => Listed(if p.name == name then [p.payload] else [], Children(b[p.size..], name))
  }

  function ChildPayloads(b: seq<byte>, name: seq<byte>): seq<seq<byte>> {
    match Children(b, name) case None => [] case Some(all) => all
  }

  function PayloadAt(b: seq<byte>, offset: nat): Option<seq<byte>> {
    if offset > |b| || FirstBox(b[offset..]).None? then None else Some(FirstBox(b[offset..]).value.payload)
  }

  lemma {:induction false} CutRange(bytes: seq<byte>, offset: nat, i: nat, j: nat)
    requires i <= j && offset + j <= |bytes|
    ensures bytes[offset..][i..j] == bytes[offset + i..offset + j]
  {
  }

  /** The box at an offset, read without cutting the bytes before it away. */
  method BoxAt(bytes: seq<byte>, offset: nat) returns (r: Option<Parsed>)
    requires offset <= |bytes|
    ensures r == FirstBox(bytes[offset..])
  {
    if offset + 8 > |bytes| { return None; }
    CutRange(bytes, offset, 0, 4);
    CutRange(bytes, offset, 4, 8);
    assert bytes[offset..][..4] == bytes[offset..][0..4];
    var size := BeUint(bytes[offset..offset + 4]);
    if size < 8 || offset + size > |bytes| { return None; }
    CutRange(bytes, offset, 8, size);
    return Some(Parsed(bytes[offset + 4..offset + 8], bytes[offset + 8..offset + size], size));
  }

  lemma {:induction false} CutAgain(bytes: seq<byte>, offset: nat, size: nat)
    requires offset + size <= |bytes|
    ensures bytes[offset..][size..] == bytes[offset + size..]
  {
  }

  lemma {:induction false} FindStep(bytes: seq<byte>, offset: nat, name: seq<byte>)
    requires offset <= |bytes| && FirstBox(bytes[offset..]).Some? && FirstBox(bytes[offset..]).value.name != name
    ensures var next := offset + FirstBox(bytes[offset..]).value.size;
            Shifted(offset, Find(bytes[offset..], name)) == Shifted(next, Find(bytes[next..], name))
  {
    hide FirstBox;
    CutAgain(bytes, offset, FirstBox(bytes[offset..]).value.size);
  }

  lemma {:induction false} FindHere(b: seq<byte>, name: seq<byte>)
    ensures FirstBox(b).None? ==> Find(b, name).None?
    ensures FirstBox(b).Some? && FirstBox(b).value.name == name ==> Find(b, name) == Some(0)
  {
    hide FirstBox;
  }

  method FindTopLevelBox(bytes: seq<byte>, name: seq<byte>) returns (r: Option<nat>)
    ensures r == Find(bytes, name)
  {
    hide Find, FirstBox;
    var offset: nat := 0;
    assert bytes[0..] == bytes;
    while true
      invariant offset <= |bytes| && Find(bytes, name) == Shifted(offset, Find(bytes[offset..], name))
      decreases |bytes| - offset
    {
      var box := BoxAt(bytes, offset);
      FindHere(bytes[offset..], name);
      if box.None? { return None; }
      if box.value.name == name { return Some(offset); }
      FindStep(bytes, offset, name);
      offset := offset + box.value.size;
    }
  }

  method ChildBoxPayload(bytes: seq<byte>, name: seq<byte>) returns (r: Option<seq<byte>>)
    ensures r == Child(bytes, name)
  {
    var offset: nat := 0;
    assert bytes[0..] == bytes;
    while true
      invariant offset <= |bytes| && Child(bytes, name) == Child(bytes[offset..], name)
      decreases |bytes| - offset
    {
      var box := BoxAt(bytes, offset);
      if box.None? { return None; }
      if box.value.name == name { return Some(box.value.payload); }
      CutAgain(bytes, offset, box.value.size);
      offset := offset + box.value.size;
    }
  }

  lemma {:induction false} ListedTwice(a: seq<seq<byte>>, b: seq<seq<byte>>, rest: Option<seq<seq<byte>>>)
    ensures Listed(a, Listed(b, rest)) == Listed(a + b, rest)
    ensures Listed([], rest) == rest && Listed(a, Some([])) == Some(a)
  {
    if rest.Some? {
      Regroup(a, b, rest.value);
      assert [] + rest.value == rest.value;
    }
    assert a + [] == a;
  }

  method ChildBoxPayloads(bytes: seq<byte>, name: seq<byte>) returns (out: seq<seq<byte>>)
    ensures out == ChildPayloads(bytes, name)
  {
    var offset: nat := 0;
    out := [];
    assert bytes[0..] == bytes;
    ListedTwice([], [], Children(bytes, name));
    while offset + 8 <= |bytes|
      invariant offset <= |bytes| && Children(bytes, name) == Listed(out, Children(bytes[offset..], name))
      decreases |bytes| - offset
    {
      var box := BoxAt(bytes, offset);
      if box.None? { return []; }
      ghost var one := if box.value.name == name then [box.value.payload] else [];
      CutAgain(bytes, offset, box.value.size);
      ListedTwice(out, one, Children(bytes[offset + box.value.size..], name));
      assert out + [] == out;
      if box.value.name == name { out := out + [box.value.payload]; }
      offset := offset + box.value.size;
    }
    ListedTwice(out, [], Some([]));
  }

  // ----- walks over written boxes -----

  lemma {:induction false} FindFirst(name: seq<byte>, payload: seq<byte>, rest: seq<byte>)
    requires |name| == 4 && 8 + |payload| <= U32_MAX
    ensures Find(Box(name, payload) + rest, name) == Some(0)
    ensures Child(Box(name, payload) + rest, name) == Some(payload)
    ensures Children(Box(name, payload) + rest, name) == Listed([payload], Children(rest, name))
  {
    BoxParses(name, payload, rest);
  }

  lemma {:induction false} FindLater(other: seq<byte>, payload: seq<byte>, rest: seq<byte>, name: seq<byte>)
    requires |other| == 4 && 8 + |payload| <= U32_MAX && other != name
    ensures Find(Box(other, payload) + rest, name) == Shifted(8 + |payload|, Find(rest, name))
    ensures Child(Box(other, payload) + rest, name) == Child(rest, name)
    ensures Children(Box(other, payload) + rest, name) == Children(rest, name)
  {
    BoxParses(other, payload, rest);
    ListedTwice([], [], Children(rest, name));
  }

  /** Of three boxes with different names each is found by its name. */
  lemma {:induction false} ThreeBoxes(n: seq<byte>, p: seq<byte>, m: seq<byte>, q: seq<byte>, k: seq<byte>,
                                      r: seq<byte>)
    requires |n| == |m| == |k| == 4 && n != m && n != k && m != k
    requires 8 + |p| <= U32_MAX && 8 + |q| <= U32_MAX && 8 + |r| <= U32_MAX
    ensures Child(Box(n, p) + Box(m, q) + Box(k, r), n) == Some(p)
    ensures Child(Box(n, p) + Box(m, q) + Box(k, r), m) == Some(q)
    ensures Child(Box(n, p) + Box(m, q) + Box(k, r), k) == Some(r)
  {
    Regroup(Box(n, p), Box(m, q), Box(k, r));
    FindFirst(n, p, Box(m, q) + Box(k, r));
    FindLater(n, p, Box(m, q) + Box(k, r), m);
    FindLater(n, p, Box(m, q) + Box(k, r), k);
    FindFirst(m, q, Box(k, r));
    FindLater(m, q, Box(k, r), k);
    FindFirst(k, r, []);
    assert Box(k, r) + [] == Box(k, r);
  }
}
