/** Laying out a Mach message: header, body and descriptors if there are any, and
    inline data, copied one after another into a buffer sized beforehand. */
module MachMessage {
  import opened Wrappers

  type Byte = x: int | 0 <= x < 256

  const UINT32: nat := 0x1_0000_0000
  const HEADER_SIZE: nat := 24
  const BODY_SIZE: nat := 4

  /** The words of a header other than its bits and its size. */
  datatype Ports = Ports(remote: nat, local: nat, voucher: nat, id: nat)

  datatype Message =
    | Raw(data: seq<Byte>)
    | Built(ports: Ports, body: seq<Option<seq<Byte>>>, data: seq<Byte>)

  // ----- Layout

  /** A 32-bit word, least significant byte first. */
  function Word(n: nat): (r: seq<Byte>)
    ensures |r| == 4
  {
    [n % 0x100, n / 0x100 % 0x100, n / 0x1_0000 % 0x100, n / 0x100_0000 % 0x100]
  }

  function ReadWord(s: seq<Byte>, at: nat): nat
    requires at + 4 <= |s|
  {
    var a: nat, b: nat, c: nat, d: nat := s[at], s[at + 1], s[at + 2], s[at + 3];
    a + 0x100 * b + 0x1_0000 * c + 0x100_0000 * d
  }

  lemma WordReads(n: nat)
    ensures ReadWord(Word(n), 0) == n % UINT32
  {
    assert n / 0x1_0000 == n / 0x100 / 0x100;
    assert n / 0x100_0000 == n / 0x1_0000 / 0x100;
    assert n / UINT32 == n / 0x100_0000 / 0x100;
  }

  function Header(bits: nat, size: nat, p: Ports): (r: seq<Byte>)
    ensures |r| == HEADER_SIZE
  {
    Word(bits) + Word(size) + Word(p.remote) + Word(p.local) + Word(p.voucher) + Word(p.id)
  }

  function Concat(parts: seq<seq<Byte>>): seq<Byte> {
    if parts == [] then [] else Concat(parts[..|parts| - 1]) + parts[|parts| - 1]
  }

  function Body(descriptors: seq<seq<Byte>>): seq<Byte> {
    if descriptors == [] then [] else Word(|descriptors|)
  }

  function Size(descriptors: seq<seq<Byte>>, data: seq<Byte>): nat {
    HEADER_SIZE + |Body(descriptors)| + |Concat(descriptors)| + |data|
  }

  /** The message as the interface describes it; the bits depend on whether there
      are descriptors. */
  function Layout(bits: bool -> nat, p: Ports, descriptors: seq<seq<Byte>>, data: seq<Byte>): seq<Byte> {
    Header(bits(descriptors != []), Size(descriptors, data), p) + Body(descriptors) + Concat(descriptors) + data
  }

  function SetOnes(body: seq<Option<seq<Byte>>>): seq<seq<Byte>> {
    if body == [] then []
    else
      var n := |body| - 1;
      SetOnes(body[..n]) + if body[n].Some? then [body[n].value] else []
  }

  // ----- Building

  /** memcpy into a buffer: within its bounds, and nothing else is written. */
  method CopyTo(buffer: array<Byte>, at: nat, src: seq<Byte>) returns (next: nat)
    requires at + |src| <= buffer.Length
    modifies buffer
    ensures next == at + |src|
    ensures buffer[..next] == old(buffer[..at]) + src
    ensures buffer[next..] == old(buffer[next..])
  {
    for i := 0 to |src|
      invariant buffer[..at + i] == old(buffer[..at]) + src[..i]
      invariant buffer[at + i..] == old(buffer[at + i..])
    {
      ghost var before := buffer[..at + i];
      assert buffer[at + i..][1..] == buffer[at + i + 1..];
      assert old(buffer[at + i..])[1..] == old(buffer[at + i + 1..]);
      buffer[at + i] := src[i];
      assert buffer[..at + i] == before;
      assert buffer[..at + i + 1] == before + [src[i]];
      assert src[..i + 1] == src[..i] + [src[i]];
    }
    assert src[..|src|] == src;
    return at + |src|;
  }

  lemma {:induction false} ConcatPrefix(parts: seq<seq<Byte>>, n: nat)
    requires n <= |parts|
    ensures |Concat(parts[..n])| <= |Concat(parts)|
    ensures n < |parts| ==> Concat(parts[..n + 1]) == Concat(parts[..n]) + parts[n]
    decreases |parts| - n
  {
    assert parts[..|parts|] == parts;
    if n < |parts| {
      assert parts[..n + 1][..n] == parts[..n];
      ConcatPrefix(parts, n + 1);
    }
  }

  method CopyAll(buffer: array<Byte>, at: nat, parts: seq<seq<Byte>>) returns (next: nat)
    requires at + |Concat(parts)| <= buffer.Length
    modifies buffer
    ensures next == at + |Concat(parts)|
    ensures buffer[..next] == old(buffer[..at]) + Concat(parts)
  {
    ghost var before := buffer[..at];
    next := at;
    for k := 0 to |parts|
      invariant next == at + |Concat(parts[..k])| <= buffer.Length
      invariant buffer[..next] == before + Concat(parts[..k])
    {
      ConcatPrefix(parts, k);
      ConcatPrefix(parts, k + 1);
      assert parts[..k + 1] == parts[..k] + [parts[k]];
      next := CopyTo(buffer, next, parts[k]);
      assert before + Concat(parts[..k]) + parts[k] == before + Concat(parts[..k + 1]);
    }
    assert parts[..|parts|] == parts;
  }

  /** None for the abort at the end. */
  method GetMachMsgStruct(bits: bool -> nat, p: Ports, data: seq<Byte>, descriptors: seq<seq<Byte>>)
    returns (r: Option<seq<Byte>>)
    ensures r == Some(Layout(bits, p, descriptors, data))
  {
    var size := HEADER_SIZE;
    if descriptors != [] {
      size := size + BODY_SIZE;
      for i := 0 to |descriptors|
        invariant size == HEADER_SIZE + BODY_SIZE + |Concat(descriptors[..i])|
      {
        ConcatPrefix(descriptors, i);
        size := size + |descriptors[i]|;
      }
      assert descriptors[..|descriptors|] == descriptors;
    }
    size := size + |data|;
    assert size == Size(descriptors, data);
    var result := new Byte[size];
    var end := FillMessage(result, Header(bits(descriptors != []), size, p), data, descriptors);
    if end != size {
      return None;
    }
    assert result[..end] == result[..];
    return Some(result[..]);
  }

  method FillMessage(result: array<Byte>, header: seq<Byte>, data: seq<Byte>, descriptors: seq<seq<Byte>>)
    returns (i: nat)
    requires |header| == HEADER_SIZE && result.Length == Size(descriptors, data)
    modifies result
    ensures i == result.Length
    ensures result[..i] == header + Body(descriptors) + Concat(descriptors) + data
  {
    i := CopyTo(result, 0, header);
    assert result[..i] == header;
    if descriptors != [] {
      i := CopyTo(result, i, Word(|descriptors|));
    }
    i := CopyAll(result, i, descriptors);
    i := CopyTo(result, i, data);
  }

  method GetMachMsg(bits: bool -> nat, msg: Message) returns (r: Option<seq<Byte>>)
    ensures r == Some(match msg
                      case Raw(data) => data
                      case Built(p, body, data) => Layout(bits, p, SetOnes(body), data))
  {
    if msg.Raw? {
      return Some(msg.data);
    }
    var descriptors := [];
    for i := 0 to |msg.body|
      invariant descriptors == SetOnes(msg.body[..i])
    {
      assert msg.body[..i + 1][..i] == msg.body[..i];
      if msg.body[i].None? {
        continue;
      }
      descriptors := descriptors + [msg.body[i].value];
    }
    assert msg.body[..|msg.body|] == msg.body;
    r := GetMachMsgStruct(bits, msg.ports, msg.data, descriptors);
  }

  // ----- Reading a message back

  lemma ReadInside(a: seq<Byte>, n: nat, b: seq<Byte>)
    ensures ReadWord(a + Word(n) + b, |a|) == n % UINT32
  {
    WordReads(n);
    var s := a + Word(n) + b;
    forall k: nat | k < 4 ensures s[|a| + k] == Word(n)[k] {}
  }

  /** The six words of the header, read back in their places. */
  lemma HeaderReads(bits: bool -> nat, p: Ports, descriptors: seq<seq<Byte>>, data: seq<Byte>)
    ensures var m := Layout(bits, p, descriptors, data);
      && |m| >= HEADER_SIZE
      && ReadWord(m, 0) == bits(descriptors != []) % UINT32
      && ReadWord(m, 4) == Size(descriptors, data) % UINT32
      && ReadWord(m, 8) == p.remote % UINT32 && ReadWord(m, 12) == p.local % UINT32
      && ReadWord(m, 16) == p.voucher % UINT32 && ReadWord(m, 20) == p.id % UINT32
  {
    var m, size := Layout(bits, p, descriptors, data), Size(descriptors, data);
    var bitsWord := Word(bits(descriptors != []));
    var rest := Body(descriptors) + Concat(descriptors) + data;
    hide Word, Concat, ReadWord;
    var r, l, v, i := Word(p.remote), Word(p.local), Word(p.voucher), Word(p.id);
    assert m == [] + bitsWord + (Word(size) + r + l + v + i + rest);
    ReadInside([], bits(descriptors != []), Word(size) + r + l + v + i + rest);
    assert m == bitsWord + Word(size) + (r + l + v + i + rest);
    ReadInside(bitsWord, size, r + l + v + i + rest);
    assert m == (bitsWord + Word(size)) + r + (l + v + i + rest);
    ReadInside(bitsWord + Word(size), p.remote, l + v + i + rest);
    assert m == (bitsWord + Word(size) + r) + l + (v + i + rest);
    ReadInside(bitsWord + Word(size) + r, p.local, v + i + rest);
    assert m == (bitsWord + Word(size) + r + l) + v + (i + rest);
    ReadInside(bitsWord + Word(size) + r + l, p.voucher, i + rest);
    assert m == (bitsWord + Word(size) + r + l + v) + i + rest;
    ReadInside(bitsWord + Word(size) + r + l + v, p.id, rest);
  }

  /** A message without descriptors has no count word; its data follow the header. */
  lemma PlainRead(bits: bool -> nat, p: Ports, data: seq<Byte>)
    ensures var m := Layout(bits, p, [], data);
      |m| == HEADER_SIZE + |data| && m[HEADER_SIZE..] == data && ReadWord(m, 0) == bits(false) % UINT32
  {
    HeaderReads(bits, p, [], data);
  }

  function Below(parts: seq<seq<Byte>>, i: nat): nat
    requires i <= |parts|
  {
    |Concat(parts[..i])|
  }

  lemma {:induction false} PartInConcat(parts: seq<seq<Byte>>, i: nat)
    requires i < |parts|
    ensures Below(parts, i) + |parts[i]| <= |Concat(parts)|
    ensures Concat(parts)[Below(parts, i)..Below(parts, i) + |parts[i]|] == parts[i]
  {
    var n := |parts| - 1;
    if i < n {
      PartInConcat(parts[..n], i);
      assert parts[..n][..i] == parts[..i];
    }
  }

  /** The size word is the length of the message, exactly while that fits 32 bits. */
  lemma SizeWord(bits: bool -> nat, p: Ports, descriptors: seq<seq<Byte>>, data: seq<Byte>)
    ensures var m := Layout(bits, p, descriptors, data);
      |m| == Size(descriptors, data) && (ReadWord(m, 4) == |m| <==> |m| < UINT32)
  {
    var m, size, first := Layout(bits, p, descriptors, data), Size(descriptors, data), Word(bits(descriptors != []));
    var rest := Word(p.remote) + Word(p.local) + Word(p.voucher) + Word(p.id)
      + Body(descriptors) + Concat(descriptors) + data;
    hide Word, Concat;
    assert m == first + Word(size) + rest;
    ReadInside(first, size, rest);
  }

  /** A message with descriptors counts them after its header, and the bytes of
      each follow in order; the data is what is left. */
  lemma DescriptorsRead(bits: bool -> nat, p: Ports, descriptors: seq<seq<Byte>>, data: seq<Byte>, i: nat)
    requires i < |descriptors|
    ensures var m := Layout(bits, p, descriptors, data);
      var start := HEADER_SIZE + BODY_SIZE + Below(descriptors, i);
      ReadWord(m, HEADER_SIZE) == |descriptors| % UINT32
      && start + |descriptors[i]| <= |m| - |data|
      && m[start..start + |descriptors[i]|] == descriptors[i]
      && m[|m| - |data|..] == data
  {
    var m, all := Layout(bits, p, descriptors, data), Concat(descriptors);
    var header := Header(bits(true), Size(descriptors, data), p);
    var k, n := Below(descriptors, i), |descriptors[i]|;
    assert m == header + Word(|descriptors|) + (all + data);
    ReadInside(header, |descriptors|, all + data);
    PartInConcat(descriptors, i);
    assert m[HEADER_SIZE + BODY_SIZE..] == all + data;
    assert m[HEADER_SIZE + BODY_SIZE + k..HEADER_SIZE + BODY_SIZE + k + n] == all[k..k + n];
  }

  function CountSet(body: seq<Option<seq<Byte>>>): nat {
    if body == [] then 0 else CountSet(body[1..]) + if body[0].Some? then 1 else 0
  }

  lemma {:induction false} CountSetLast(body: seq<Option<seq<Byte>>>)
    requires body != []
    ensures var n := |body| - 1; CountSet(body) == CountSet(body[..n]) + if body[n].Some? then 1 else 0
  {
    if |body| > 1 {
      CountSetLast(body[1..]);
      assert body[1..][..|body| - 2] == body[..|body| - 1][1..];
    } else {
      assert body[1..] == [] && body[..0] == [];
    }
  }

  /** The count word of a built message is the number of set descriptors; with
      none of them set there is no count word. */
  lemma {:induction false} SetOnesCount(body: seq<Option<seq<Byte>>>)
    ensures |SetOnes(body)| == CountSet(body)
  {
    if body != [] {
      SetOnesCount(body[..|body| - 1]);
      CountSetLast(body);
    }
  }

  /** The set descriptors keep their order: one comes after those set before it. */
  lemma {:induction false} SetOnesOrder(body: seq<Option<seq<Byte>>>, i: nat)
    requires i < |body| && body[i].Some?
    ensures CountSet(body[..i]) < |SetOnes(body)| && SetOnes(body)[CountSet(body[..i])] == body[i].value
    decreases |body|
  {
    var n := |body| - 1;
    SetOnesCount(body[..n]);
    if i < n {
      SetOnesOrder(body[..n], i);
      assert body[..n][..i] == body[..i];
    }
  }
}
