/** The length-prefixed encoding behind every scope digest: each part is eight big-endian bytes of
    length and then the part itself. */
module ScopeEncoding {
  import opened Wrappers
  import opened Bytes

  type Text = seq<Byte>

  // ----------------------------------------------------------- big endian

  function Power(k: nat): (p: nat)
    ensures p >= 1
  {
    if k == 0 then 1 else 256 * Power(k - 1)
  }

  /** The low `k` bytes of `n`. */
  function BigEndian(n: nat, k: nat): (b: Text)
    ensures |b| == k
  {
    if k == 0 then [] else BigEndian(n / 256, k - 1) + [n % 256]
  }

  function FromBigEndian(b: Text): nat {
    if b == [] then 0 else 256 * FromBigEndian(b[..|b| - 1]) + b[|b| - 1]
  }

  lemma {:induction false} BigEndianRoundTrip(n: nat, k: nat)
    requires n < Power(k)
    ensures FromBigEndian(BigEndian(n, k)) == n
  {
    if k > 0 {
      BigEndianRoundTrip(n / 256, k - 1);
      var b := BigEndian(n, k);
      assert b[..k - 1] == BigEndian(n / 256, k - 1) && b[k - 1] == n % 256;
    }
  }

  lemma {:induction false} FromBigEndianRoundTrip(b: Text)
    ensures FromBigEndian(b) < Power(|b|) && BigEndian(FromBigEndian(b), |b|) == b
  {
    if b != [] {
      var last := |b| - 1;
      FromBigEndianRoundTrip(b[..last]);
      assert b == b[..last] + [b[last]];
    }
  }

  lemma {:induction false} Multiples(d: nat, a: nat, b: nat)
    ensures a < b ==> d * a + d <= d * b
    decreases b
  {
    if a < b {
      Multiples(d, a, b - 1);
      assert d * b == d * (b - 1) + d;
    }
  }

  lemma {:induction false} DivisionIs(n: nat, d: nat, t: nat, m: nat)
    requires n == d * t + m && m < d
    ensures n / d == t
  {
    Multiples(d, n / d, t);
    Multiples(d, t, n / d);
  }

  lemma {:induction false} DivideTwice(n: nat, b: nat)
    requires b >= 1
    ensures n / 256 / b == n / (256 * b)
  {
    var q, r := n / 256, n % 256;
    var t, u := q / b, q % b;
    assert q == b * t + u && n == 256 * q + r;
    assert n == (256 * b) * t + (256 * u + r) by {
      assert 256 * (b * t) == (256 * b) * t;
    }
    DivisionIs(n, 256 * b, t, 256 * u + r);
  }

  /** Byte `i` of `k` is worth 256 to the power of the bytes that follow it: the high byte comes first. */
  lemma {:induction false} HighByteFirst(n: nat, k: nat, i: nat)
    requires i < k
    ensures BigEndian(n, k)[i] == n / Power(k - 1 - i) % 256
  {
    if i < k - 1 {
      HighByteFirst(n / 256, k - 1, i);
      DivideTwice(n, Power(k - 2 - i));
    }
  }

  // ---------------------------------------------------------------- parts

  /** A part of 2^64 bytes or more would have its length cut off. */
  function Part(value: Text): Text {
    BigEndian(|value|, 8) + value
  }

  function Encode(parts: seq<Text>): Text {
    if parts == [] then [] else Part(parts[0]) + Encode(parts[1..])
  }

  /** The reader that takes an encoding apart. */
  function Parse(b: Text): Option<seq<Text>>
    decreases |b|
  {
    if b == [] then Some([])
    else if |b| < 8 || |b| - 8 < FromBigEndian(b[..8]) then None
    else
      var n := 8 + FromBigEndian(b[..8]);
      match Parse(b[n..])
      case None => None
      case Some(rest) => Some([b[8..n]] + rest)
  }

  ghost predicate Short(parts: seq<Text>) {
    forall i | 0 <= i < |parts| :: |parts[i]| < Power(8)
  }

  lemma {:induction false} EncodeConcat(a: seq<Text>, b: seq<Text>)
    ensures Encode(a + b) == Encode(a) + Encode(b)
  {
    if a == [] {
      assert a + b == b;
    } else {
      assert (a + b)[1..] == a[1..] + b;
      EncodeConcat(a[1..], b);
    }
  }

  lemma {:induction false} ParsePart(value: Text, rest: Text)
    requires |value| < Power(8)
    ensures Parse(Part(value) + rest)
         == match Parse(rest) { case None => None case Some(parts) => Some([value] + parts) }
  {
    hide Power, BigEndian, FromBigEndian;
    BigEndianRoundTrip(|value|, 8);
    var b := Part(value) + rest;
    assert b[..8] == BigEndian(|value|, 8);
    assert b[8..8 + |value|] == value && b[8 + |value|..] == rest;
  }

  lemma {:induction false} ParseEncode(parts: seq<Text>)
    requires Short(parts)
    ensures Parse(Encode(parts)) == Some(parts)
  {
    hide Power, Part;
    if parts != [] {
      ParsePart(parts[0], Encode(parts[1..]));
      ParseEncode(parts[1..]);
      assert parts == [parts[0]] + parts[1..];
    }
  }

  /** What parses is the encoding of what it parses to, so `Parse` and `Encode` are inverse. */
  lemma {:induction false} EncodeParse(b: Text)
    requires Parse(b).Some?
    ensures Short(Parse(b).value) && Encode(Parse(b).value) == b
    decreases |b|
  {
    hide Power, BigEndian, FromBigEndian;
    if b != [] {
      var length := FromBigEndian(b[..8]);
      var n := 8 + length;
      EncodeParse(b[n..]);
      FromBigEndianRoundTrip(b[..8]);
      assert b == b[..8] + b[8..n] + b[n..];
      assert Parse(b).value[1..] == Parse(b[n..]).value;
      LengthPrefix(b, n);
    }
  }

  lemma {:induction false} LengthPrefix(b: Text, n: nat)
    requires 8 <= n <= |b| && BigEndian(n - 8, 8) == b[..8]
    ensures Part(b[8..n]) == b[..8] + b[8..n]
  {
  }

  /** Part lists are uniquely decodable. */
  lemma {:induction false} UniquelyDecodable(a: seq<Text>, b: seq<Text>)
    requires Short(a) && Short(b)
    ensures Encode(a) == Encode(b) <==> a == b
  {
    ParseEncode(a);
    ParseEncode(b);
  }

  // ----------------------------------------------------- structured payloads

  datatype Message = Message(role: Text, content: Text)

  datatype Block = Block(sourceRef: Text, category: Text, content: Text)

  datatype Image = Image(sourceRef: Text, mimeType: Text, sha256: Text, byteCount: nat)

  datatype Payload = Payload(messages: seq<Message>, blocks: seq<Block>, images: seq<Image>)

  function MessageTail(m: Message): (parts: seq<Text>)
    ensures |parts| == 2
  {
    [m.role, m.content]
  }

  function BlockTail(k: Block): (parts: seq<Text>)
    ensures |parts| == 3
  {
    [k.sourceRef, k.category, k.content]
  }

  function ImageTail(i: Image): (parts: seq<Text>)
    ensures |parts| == 4
  {
    [i.sourceRef, i.mimeType, i.sha256, BigEndian(i.byteCount, 8)]
  }

  function MessageParts(messages: seq<Message>): (parts: seq<Text>)
    ensures |parts| == 2 * |messages|
  {
    if messages == [] then []
    else MessageParts(messages[..|messages| - 1]) + MessageTail(messages[|messages| - 1])
  }

  function BlockParts(blocks: seq<Block>): (parts: seq<Text>)
    ensures |parts| == 3 * |blocks|
  {
    if blocks == [] then []
    else BlockParts(blocks[..|blocks| - 1]) + BlockTail(blocks[|blocks| - 1])
  }

  function ImageParts(images: seq<Image>): (parts: seq<Text>)
    ensures |parts| == 4 * |images|
  {
    if images == [] then []
    else ImageParts(images[..|images| - 1]) + ImageTail(images[|images| - 1])
  }

  function ContentParts(p: Payload): seq<Text> {
    MessageParts(p.messages) + BlockParts(p.blocks) + ImageParts(p.images)
  }

  lemma {:induction false} MessagesInOrder(messages: seq<Message>, i: nat)
    requires i < |messages|
    ensures MessageParts(messages)[2 * i..2 * i + 2] == [messages[i].role, messages[i].content]
  {
    var n := |messages| - 1;
    if i < n {
      MessagesInOrder(messages[..n], i);
      assert MessageParts(messages)[2 * i..2 * i + 2] == MessageParts(messages[..n])[2 * i..2 * i + 2];
    }
  }

  lemma {:induction false} BlocksInOrder(blocks: seq<Block>, i: nat)
    requires i < |blocks|
    ensures BlockParts(blocks)[3 * i..3 * i + 3] == [blocks[i].sourceRef, blocks[i].category, blocks[i].content]
  {
    var n := |blocks| - 1;
    if i < n {
      BlocksInOrder(blocks[..n], i);
      assert BlockParts(blocks)[3 * i..3 * i + 3] == BlockParts(blocks[..n])[3 * i..3 * i + 3];
    }
  }

  lemma {:induction false} ImagesInOrder(images: seq<Image>, i: nat)
    requires i < |images|
    ensures ImageParts(images)[4 * i..4 * i + 4]
         == [images[i].sourceRef, images[i].mimeType, images[i].sha256, BigEndian(images[i].byteCount, 8)]
  {
    var n := |images| - 1;
    hide BigEndian;
    if i < n {
      ImagesInOrder(images[..n], i);
      assert ImageParts(images)[4 * i..4 * i + 4] == ImageParts(images[..n])[4 * i..4 * i + 4];
    }
  }

  /** The parts of a payload: two for each message, then three for each block, then four for each image, in
      their order. */
  lemma {:induction false} PartsInOrder(p: Payload)
    ensures var parts, m, n := ContentParts(p), 2 * |p.messages|, 2 * |p.messages| + 3 * |p.blocks|;
      && |parts| == n + 4 * |p.images|
      && (forall i | 0 <= i < |p.messages| :: parts[2 * i..2 * i + 2] == [p.messages[i].role, p.messages[i].content])
      && (forall i | 0 <= i < |p.blocks| ::
            parts[m + 3 * i..m + 3 * i + 3] == [p.blocks[i].sourceRef, p.blocks[i].category, p.blocks[i].content])
      && (forall i | 0 <= i < |p.images| ::
            parts[n + 4 * i..n + 4 * i + 4]
            == [p.images[i].sourceRef, p.images[i].mimeType, p.images[i].sha256, BigEndian(p.images[i].byteCount, 8)])
  {
    hide MessageParts, BlockParts, ImageParts, BigEndian;
    var parts, m, n := ContentParts(p), 2 * |p.messages|, 2 * |p.messages| + 3 * |p.blocks|;
    forall i | 0 <= i < |p.messages| ensures parts[2 * i..2 * i + 2] == [p.messages[i].role, p.messages[i].content] {
      MessagesInOrder(p.messages, i);
      assert parts[2 * i..2 * i + 2] == MessageParts(p.messages)[2 * i..2 * i + 2];
    }
    forall i | 0 <= i < |p.blocks|
      ensures parts[m + 3 * i..m + 3 * i + 3] == [p.blocks[i].sourceRef, p.blocks[i].category, p.blocks[i].content]
    {
      BlocksInOrder(p.blocks, i);
      assert parts[m + 3 * i..m + 3 * i + 3] == BlockParts(p.blocks)[3 * i..3 * i + 3];
    }
    forall i | 0 <= i < |p.images|
      ensures parts[n + 4 * i..n + 4 * i + 4]
           == [p.images[i].sourceRef, p.images[i].mimeType, p.images[i].sha256, BigEndian(p.images[i].byteCount, 8)]
    {
      ImagesInOrder(p.images, i);
      assert parts[n + 4 * i..n + 4 * i + 4] == ImageParts(p.images)[4 * i..4 * i + 4];
    }
  }

  /** Byte counts are 64-bit numbers. */
  ghost predicate Representable(p: Payload) {
    forall i | 0 <= i < |p.images| :: p.images[i].byteCount < Power(8)
  }

  predicate SameCounts(a: Payload, b: Payload) {
    |a.messages| == |b.messages| && |a.blocks| == |b.blocks| && |a.images| == |b.images|
  }

  lemma {:induction false} SameTail(p: seq<Text>, q: seq<Text>, t: seq<Text>, u: seq<Text>)
    requires p + t == q + u && |t| == |u|
    ensures p == q && t == u
  {
    assert (p + t)[..|p|] == p && (q + u)[..|p|] == q;
    assert (p + t)[|p|..] == t && (q + u)[|p|..] == u;
  }

  lemma {:induction false} SameMessage(a: Message, b: Message)
    requires MessageTail(a) == MessageTail(b)
    ensures a == b
  {
    assert MessageTail(a)[0] == a.role && MessageTail(a)[1] == a.content;
  }

  lemma {:induction false} SameBlock(a: Block, b: Block)
    requires BlockTail(a) == BlockTail(b)
    ensures a == b
  {
    assert BlockTail(a)[0] == a.sourceRef && BlockTail(a)[1] == a.category && BlockTail(a)[2] == a.content;
  }

  lemma {:induction false} SameImage(a: Image, b: Image)
    requires ImageTail(a) == ImageTail(b) && a.byteCount < Power(8) && b.byteCount < Power(8)
    ensures a == b
  {
    hide Power, BigEndian, FromBigEndian;
    assert ImageTail(a)[0] == a.sourceRef && ImageTail(a)[1] == a.mimeType && ImageTail(a)[2] == a.sha256;
    assert ImageTail(a)[3] == BigEndian(a.byteCount, 8) && ImageTail(b)[3] == BigEndian(b.byteCount, 8);
    BigEndianRoundTrip(a.byteCount, 8);
    BigEndianRoundTrip(b.byteCount, 8);
  }

  lemma {:induction false} MessagesFromParts(a: seq<Message>, b: seq<Message>)
    requires MessageParts(a) == MessageParts(b)
    ensures a == b
  {
    hide MessageTail;
    if a != [] {
      var n := |a| - 1;
      SameTail(MessageParts(a[..n]), MessageParts(b[..n]), MessageTail(a[n]), MessageTail(b[n]));
      MessagesFromParts(a[..n], b[..n]);
      SameMessage(a[n], b[n]);
      assert a == a[..n] + [a[n]] && b == b[..n] + [b[n]];
    }
  }

  lemma {:induction false} BlocksFromParts(a: seq<Block>, b: seq<Block>)
    requires BlockParts(a) == BlockParts(b)
    ensures a == b
  {
    hide BlockTail;
    if a != [] {
      var n := |a| - 1;
      SameTail(BlockParts(a[..n]), BlockParts(b[..n]), BlockTail(a[n]), BlockTail(b[n]));
      BlocksFromParts(a[..n], b[..n]);
      SameBlock(a[n], b[n]);
      assert a == a[..n] + [a[n]] && b == b[..n] + [b[n]];
    }
  }

  lemma {:induction false} ImagesFromParts(a: seq<Image>, b: seq<Image>)
    requires ImageParts(a) == ImageParts(b)
    requires forall i | 0 <= i < |a| :: a[i].byteCount < Power(8)
    requires forall i | 0 <= i < |b| :: b[i].byteCount < Power(8)
    ensures a == b
  {
    hide ImageTail, Power;
    if a != [] {
      var n := |a| - 1;
      SameTail(ImageParts(a[..n]), ImageParts(b[..n]), ImageTail(a[n]), ImageTail(b[n]));
      ImagesFromParts(a[..n], b[..n]);
      SameImage(a[n], b[n]);
      assert a == a[..n] + [a[n]] && b == b[..n] + [b[n]];
    }
  }

  /** Payloads with the same parts are the same exactly if their lists have the same lengths: the
      encoding carries no counts. */
  lemma {:induction false} PayloadFromParts(a: Payload, b: Payload)
    requires Representable(a) && Representable(b) && ContentParts(a) == ContentParts(b)
    ensures a == b <==> SameCounts(a, b)
  {
    hide MessageParts, BlockParts, ImageParts, Power;
    if SameCounts(a, b) {
      var m, n := 2 * |a.messages|, 2 * |a.messages| + 3 * |a.blocks|;
      var pa, pb := ContentParts(a), ContentParts(b);
      assert pa[..m] == MessageParts(a.messages) && pb[..m] == MessageParts(b.messages);
      assert pa[m..n] == BlockParts(a.blocks) && pb[m..n] == BlockParts(b.blocks);
      assert pa[n..] == ImageParts(a.images) && pb[n..] == ImageParts(b.images);
      MessagesFromParts(a.messages, b.messages);
      BlocksFromParts(a.blocks, b.blocks);
      ImagesFromParts(a.images, b.images);
    }
  }

  /** Three messages and two blocks can have the same parts. */
  lemma {:induction false} CountsMatter(x: Text)
    ensures var a := Payload([Message(x, x), Message(x, x), Message(x, x)], [], []);
      var b := Payload([], [Block(x, x, x), Block(x, x, x)], []);
      a != b && ContentParts(a) == ContentParts(b)
  {
    var m, k := Message(x, x), Block(x, x, x);
    var six := [x, x, x, x, x, x];
    assert [m, m, m][..2] == [m, m] && [m, m][..1] == [m] && [m][..0] == [];
    assert MessageParts([m]) == [x, x];
    assert MessageParts([m, m]) == [x, x, x, x];
    assert MessageParts([m, m, m]) == six;
    assert [k, k][..1] == [k] && [k][..0] == [];
    assert BlockParts([k]) == [x, x, x];
    assert BlockParts([k, k]) == six;
    assert six + [] + [] == six && [] + six + [] == six;
  }

  // -------------------------------------------------------- building a scope

  class ScopeBuffer {
    var bytes: Text

    constructor ()
      ensures bytes == []
    {
      bytes := [];
    }

    method AppendScopePart(value: Text)
      modifies this
      ensures bytes == old(bytes) + Part(value)
    {
      bytes := bytes + BigEndian(|value|, 8);
      bytes := bytes + value;
      assert old(bytes) + BigEndian(|value|, 8) + value == old(bytes) + Part(value);
    }

    method AppendMessages(messages: seq<Message>)
      modifies this
      ensures bytes == old(bytes) + Encode(MessageParts(messages))
    {
      hide Part, Encode;
      assert messages[..0] == [];
      EncodeNothing(bytes);
      for i := 0 to |messages|
        invariant bytes == old(bytes) + Encode(MessageParts(messages[..i]))
      {
        var message := messages[i];
        AppendScopePart(message.role);
        AppendScopePart(message.content);
        Grow2(old(bytes), MessageParts(messages[..i]), message.role, message.content);
        assert messages[..i + 1][..i] == messages[..i];
      }
      assert messages[..|messages|] == messages;
    }

    method AppendBlocks(blocks: seq<Block>)
      modifies this
      ensures bytes == old(bytes) + Encode(BlockParts(blocks))
    {
      hide Part, Encode, BlockTail;
      assert blocks[..0] == [];
      EncodeNothing(bytes);
      for i := 0 to |blocks|
        invariant bytes == old(bytes) + Encode(BlockParts(blocks[..i]))
      {
        var block := blocks[i];
        AppendScopePart(block.sourceRef);
        AppendScopePart(block.category);
        AppendScopePart(block.content);
        Grow3(old(bytes), BlockParts(blocks[..i]), block);
        assert blocks[..i + 1][..i] == blocks[..i];
      }
      assert blocks[..|blocks|] == blocks;
    }

    method AppendImages(images: seq<Image>)
      modifies this
      ensures bytes == old(bytes) + Encode(ImageParts(images))
    {
      hide Part, Encode, ImageTail, BigEndian;
      assert images[..0] == [];
      EncodeNothing(bytes);
      for i := 0 to |images|
        invariant bytes == old(bytes) + Encode(ImageParts(images[..i]))
      {
        var image := images[i];
        AppendScopePart(image.sourceRef);
        AppendScopePart(image.mimeType);
        AppendScopePart(image.sha256);
        AppendScopePart(BigEndian(image.byteCount, 8));
        Grow4(old(bytes), ImageParts(images[..i]), image);
        assert images[..i + 1][..i] == images[..i];
      }
      assert images[..|images|] == images;
    }

    /** The loops over messages, context blocks and images. */
    method AppendContent(p: Payload)
      modifies this
      ensures bytes == old(bytes) + Encode(ContentParts(p))
    {
      hide Encode, MessageParts, BlockParts, ImageParts;
      AppendMessages(p.messages);
      AppendBlocks(p.blocks);
      AppendImages(p.images);
      EncodeConcat(MessageParts(p.messages), BlockParts(p.blocks));
      EncodeConcat(MessageParts(p.messages) + BlockParts(p.blocks), ImageParts(p.images));
    }
  }

  lemma {:induction false} EncodeNothing(start: Text)
    ensures start + Encode([]) == start && MessageParts([]) == [] && BlockParts([]) == [] && ImageParts([]) == []
  {
  }

  lemma {:induction false} Grow1(start: Text, parts: seq<Text>, a: Text)
    ensures start + Encode(parts + [a]) == start + Encode(parts) + Part(a)
  {
    hide Part;
    EncodeConcat(parts, [a]);
    assert [a][1..] == [] && Encode([a]) == Part(a) + Encode([]);
    assert Part(a) + [] == Part(a);
  }

  lemma {:induction false} Grow2(start: Text, parts: seq<Text>, a: Text, b: Text)
    ensures start + Encode(parts + [a, b]) == start + Encode(parts) + Part(a) + Part(b)
  {
    hide Part, Encode;
    Grow1(start, parts, a);
    Grow1(start, parts + [a], b);
    assert parts + [a] + [b] == parts + [a, b];
  }

  lemma {:induction false} Grow3(start: Text, parts: seq<Text>, k: Block)
    ensures start + Encode(parts + BlockTail(k))
         == start + Encode(parts) + Part(k.sourceRef) + Part(k.category) + Part(k.content)
  {
    hide Part, Encode;
    Grow2(start, parts, k.sourceRef, k.category);
    Grow1(start, parts + [k.sourceRef, k.category], k.content);
    assert parts + [k.sourceRef, k.category] + [k.content] == parts + BlockTail(k);
  }

  lemma {:induction false} Grow4(start: Text, parts: seq<Text>, i: Image)
    ensures start + Encode(parts + ImageTail(i))
         == start + Encode(parts) + Part(i.sourceRef) + Part(i.mimeType) + Part(i.sha256) + Part(BigEndian(i.byteCount, 8))
  {
    hide Part, Encode, BigEndian;
    Grow2(start, parts, i.sourceRef, i.mimeType);
    var half := parts + [i.sourceRef, i.mimeType];
    Grow2(start, half, i.sha256, BigEndian(i.byteCount, 8));
    assert half + [i.sha256, BigEndian(i.byteCount, 8)] == parts + ImageTail(i);
  }

  lemma {:induction false} EncodeThree(a: Text, b: Text, c: Text)
    ensures Encode([a, b, c]) == [] + Part(a) + Part(b) + Part(c)
  {
    hide Part;
    EncodeNothing([]);
    Grow2([], [], a, b);
    Grow1([], [a, b], c);
    assert [] + [a, b] == [a, b] && [a, b] + [c] == [a, b, c];
    assert [] + Encode([a, b, c]) == Encode([a, b, c]);
    assert [] + Encode([]) == [];
  }
}
