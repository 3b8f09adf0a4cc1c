/**
 DER encoding as the fixture TLS identity builds it: definite lengths, tag-length-value
 items and object identifiers, together with a strict reader for the same octets
 (ITU-T X.690 sections 8.1, 8.19 and 10.1).

 `Length`, `Arc` and `Oid` are the specification functions; the methods `LengthOctets`,
 `ArcOctets` and `OidOctets` run the encoder's own loops and are proved equal to them.
 */
module Der {
  import opened Common

  type Byte = b: int | 0 <= b < 256

  /** A JavaScript length: an integer up to 2^53 - 1. */
  type Size = n: int | 0 <= n <= 0x1F_FFFF_FFFF_FFFF

  /** The outcome of reading one item from the front of an octet string. */
  datatype Parsed<+T> = Fail | Ok(value: T, rest: seq<Byte>)

  // ----- Base-256 numerals -----

  /** The big-endian base-256 numeral of `n`; empty for zero. */
  function Base256(n: nat): seq<Byte> {
    if n == 0 then [] else Base256(n / 256) + [n % 256]
  }

  function Value256(bs: seq<Byte>): nat {
    if bs == [] then 0 else 256 * Value256(bs[..|bs| - 1]) + bs[|bs| - 1]
  }

  lemma {:induction false} Value256OfBase256(n: nat)
    ensures Value256(Base256(n)) == n
    ensures n > 0 ==> Base256(n)[0] != 0
  {
    if n > 0 {
      Value256OfBase256(n / 256);
      assert Base256(n)[..|Base256(n)| - 1] == Base256(n / 256);
    }
  }

  /** A numeral without a leading zero is the one that `Base256` writes. */
  lemma {:induction false} Base256OfValue256(bs: seq<Byte>)
    requires bs != [] ==> bs[0] != 0
    ensures Base256(Value256(bs)) == bs
  {
    if bs != [] {
      var init := bs[..|bs| - 1];
      Base256OfValue256(init);
      if init == [] { assert Value256(bs) == bs[0]; }
      assert Value256(bs) / 256 == Value256(init) && Value256(bs) % 256 == bs[|bs| - 1];
      assert Value256(bs) > 0 by {
        if init != [] { assert Base256(0) == []; }
      }
      assert bs == init + [bs[|bs| - 1]];
    }
  }

  /** No numeral of the same value is shorter than the one `Base256` writes. */
  lemma {:induction false} Base256IsShortest(bs: seq<Byte>)
    ensures |Base256(Value256(bs))| <= |bs|
  {
    if bs != [] {
      Base256IsShortest(bs[..|bs| - 1]);
      assert Value256(bs) / 256 == Value256(bs[..|bs| - 1]);
    }
  }

  lemma {:induction false} Base256Count(n: nat, k: nat, bound: nat)
    requires n < bound
    requires bound == Power256(k)
    ensures |Base256(n)| <= k
  {
    if n > 0 {
      if k > 0 {
        Base256Count(n / 256, k - 1, Power256(k - 1));
      }
    }
  }

  function Power256(k: nat): nat {
    if k == 0 then 1 else 256 * Power256(k - 1)
  }

  // ----- Definite lengths -----

  /** The length octets of a body of `size` octets; `0x80 | count` is cut to one octet by the buffer. */
  function Length(size: nat): seq<Byte> {
    if size < 0x80 then [size]
    else [0x80 + |Base256(size)| % 0x80] + Base256(size)
  }

  lemma SizeFits(size: Size)
    ensures |Base256(size)| <= 7
  {
    assert Power256(7) == 0x100_0000_0000_0000 by {
      assert Power256(1) == 0x100;
      assert Power256(2) == 0x1_0000;
      assert Power256(3) == 0x100_0000;
      assert Power256(4) == 0x1_0000_0000;
      assert Power256(5) == 0x100_0000_0000;
      assert Power256(6) == 0x1_0000_0000_0000;
    }
    Base256Count(size, 7, Power256(7));
  }

  /** The encoder's loop: prepend `rest % 256` until nothing is left. */
  method LengthOctets(size: nat) returns (octets: seq<Byte>)
    ensures octets == Length(size)
  {
    if size < 0x80 { return [size]; }
    var bytes: seq<Byte> := [];
    var rest: nat := size;
    while rest > 0
      invariant Base256(rest) + bytes == Base256(size)
    {
      assert Base256(rest) + bytes == Base256(rest / 256) + ([rest % 256] + bytes);
      bytes := [rest % 256] + bytes;
      rest := rest / 256;
    }
    assert bytes == Base256(size);
    octets := [0x80 + |bytes| % 0x80] + bytes;
  }

  /** A definite length in the basic encoding rules (X.690 section 8.1.3): any number of octets. */
  function ReadBasicLength(bs: seq<Byte>): Parsed<nat> {
    if bs == [] then Fail
    else if bs[0] < 0x80 then Ok(bs[0], bs[1..])
    else
      var count := bs[0] - 0x80;
      if count == 0 || count == 127 || |bs| < 1 + count then Fail
      else Ok(Value256(bs[1..1 + count]), bs[1 + count..])
  }

  /** A length in the distinguished encoding rules (X.690 section 10.1): the basic one, if minimal. */
  function ReadLength(bs: seq<Byte>): Parsed<nat> {
    var basic := ReadBasicLength(bs);
    if basic.Fail? || bs[0] < 0x80 then basic
    else if bs[1] == 0 || basic.value < 0x80 then Fail
    else basic
  }

  /** Reading a long form finds its digits. */
  lemma ReadLongForm(digits: seq<Byte>, rest: seq<Byte>)
    requires 1 <= |digits| <= 126
    ensures var bs := [0x80 + |digits|] + digits + rest;
            ReadBasicLength(bs) == Ok(Value256(digits), rest) && bs[1] == digits[0]
  {
    var bs := [0x80 + |digits|] + digits + rest;
    assert bs[1..1 + |digits|] == digits;
    assert bs[1 + |digits|..] == rest;
  }

  lemma LongLength(size: Size) returns (digits: seq<Byte>)
    requires size >= 0x80
    ensures 1 <= |digits| <= 7 && digits[0] != 0 && Value256(digits) == size
    ensures Length(size) == [0x80 + |digits|] + digits
  {
    digits := Base256(size);
    SizeFits(size);
    Value256OfBase256(size);
    assert |digits| % 0x80 == |digits|;
  }

  lemma LengthRoundTrip(size: Size, rest: seq<Byte>)
    ensures ReadLength(Length(size) + rest) == Ok(size, rest)
  {
    if size >= 0x80 {
      var digits := LongLength(size);
      ReadLongForm(digits, rest);
    }
  }

  lemma LengthShrinks(bs: seq<Byte>)
    requires ReadLength(bs).Ok?
    ensures |ReadLength(bs).rest| < |bs|
  {
  }

  /** Whatever the strict reader accepts is exactly what the encoder would have written. */
  lemma LengthIsCanonical(bs: seq<Byte>)
    requires ReadLength(bs).Ok? && ReadLength(bs).value <= 0x1F_FFFF_FFFF_FFFF
    ensures bs == Length(ReadLength(bs).value) + ReadLength(bs).rest
  {
    if bs[0] >= 0x80 {
      var count := bs[0] - 0x80;
      var digits := bs[1..1 + count];
      assert digits[0] == bs[1];
      Base256OfValue256(digits);
      assert |digits| == count;
    }
  }

  /** X.690 section 10.1: of all definite encodings of a size the encoder writes the one shortest,
      and the strict reader accepts no other. */
  lemma LengthIsMinimal(size: Size, bs: seq<Byte>)
    requires ReadBasicLength(bs).Ok? && ReadBasicLength(bs).value == size
    ensures var used := |bs| - |ReadBasicLength(bs).rest|;
            |Length(size)| <= used && (ReadLength(bs).Ok? <==> |Length(size)| == used)
  {
    if bs[0] >= 0x80 {
      var digits := bs[1..1 + (bs[0] - 0x80)];
      assert digits[0] == bs[1];
      Base256IsShortest(digits);
      if bs[1] == 0 {
        LeadingZeroIsLonger(digits);
      } else {
        Base256OfValue256(digits);
      }
    }
  }

  lemma {:induction false} LeadingZeroIsLonger(bs: seq<Byte>)
    requires bs != [] && bs[0] == 0
    ensures |Base256(Value256(bs))| < |bs|
  {
    if |bs| > 1 {
      LeadingZeroIsLonger(bs[..|bs| - 1]);
      assert Value256(bs) / 256 == Value256(bs[..|bs| - 1]);
    } else {
      assert Value256(bs) == 256 * Value256(bs[..0]) + bs[0] == 0;
    }
  }

  // ----- Tag-length-value items -----

  function Concat(parts: seq<seq<Byte>>): seq<Byte> {
    if parts == [] then [] else parts[0] + Concat(parts[1..])
  }

  function Tlv(tag: Byte, contents: seq<seq<Byte>>): seq<Byte> {
    var body := Concat(contents);
    Concat([[tag], Length(|body|), body])
  }

  lemma TlvIs(tag: Byte, contents: seq<seq<Byte>>)
    ensures Tlv(tag, contents) == [tag] + Length(|Concat(contents)|) + Concat(contents)
  {
    var body := Concat(contents);
    calc {
      Tlv(tag, contents);
      { assert [[tag], Length(|body|), body][1..] == [Length(|body|), body]; }
      [tag] + Concat([Length(|body|), body]);
      { assert [Length(|body|), body][1..] == [body]; }
      [tag] + (Length(|body|) + Concat([body]));
      { assert Concat([body]) == body + Concat([]); }
      [tag] + Length(|body|) + body;
    }
  }

  /** Reading the front of an item finds its tag, then the size of its body, then the body itself. */
  lemma TlvFront(tag: Byte, contents: seq<seq<Byte>>, rest: seq<Byte>)
    requires |Concat(contents)| <= 0x1F_FFFF_FFFF_FFFF
    ensures var body, bs := Concat(contents), Tlv(tag, contents) + rest;
            && bs[0] == tag
            && ReadLength(bs[1..]) == Ok(|body|, body + rest)
            && (body + rest)[..|body|] == body && (body + rest)[|body|..] == rest
  {
    var body := Concat(contents);
    TlvIs(tag, contents);
    LengthRoundTrip(|body|, body + rest);
    Regroup(tag, Length(|body|), body, rest);
  }

  lemma Regroup(tag: Byte, length: seq<Byte>, body: seq<Byte>, rest: seq<Byte>)
    ensures var bs := [tag] + length + body + rest;
            bs[0] == tag && bs[1..] == length + (body + rest)
    ensures (body + rest)[..|body|] == body && (body + rest)[|body|..] == rest
  {
  }

  /** A DER value: octets under a primitive tag, or items under a constructed one. */
  datatype Node =
    | Primitive(tag: Byte, body: seq<Byte>)
    | Constructed(tag: Byte, items: seq<Node>)

  /** Bit 6 of the identifier octet (X.690 section 8.1.2.5). */
  predicate IsConstructedTag(tag: Byte) {
    tag / 0x20 % 2 == 1
  }

  /** A one-octet identifier; tag number 31 announces the multi-octet form, which nothing writes. */
  predicate IsLowTag(tag: Byte) {
    tag % 0x20 != 0x1F
  }

  /** The items as the encoder writes them: each one a `Tlv` of the parts below it. */
  function Encode(node: Node): seq<Byte> {
    match node
    case Primitive(tag, body) => Tlv(tag, [body])
    case Constructed(tag, items) => Tlv(tag, EncodeEach(items))
  }

  function EncodeEach(items: seq<Node>): seq<seq<Byte>> {
    if items == [] then [] else [Encode(items[0])] + EncodeEach(items[1..])
  }

  /** The node uses one-octet tags of its own kind, and every length is a JavaScript length. */
  ghost predicate Encodable(node: Node) {
    IsLowTag(node.tag) &&
    match node
    case Primitive(tag, body) => !IsConstructedTag(tag) && |body| <= 0x1F_FFFF_FFFF_FFFF
    case Constructed(tag, items) =>
      && IsConstructedTag(tag)
      && EncodableEach(items)
      && |Concat(EncodeEach(items))| <= 0x1F_FFFF_FFFF_FFFF
  }

  ghost predicate EncodableEach(items: seq<Node>) {
    forall item | item in items :: Encodable(item)
  }

  /** Reads one value under the distinguished encoding rules from the front of `bs`. */
  function Decode(bs: seq<Byte>): (r: Parsed<Node>)
    ensures r.Ok? ==> |r.rest| < |bs|
    decreases |bs|, 0
  {
    if bs == [] || !IsLowTag(bs[0]) then Fail
    else
      var length := ReadLength(bs[1..]);
      if length.Fail? || |length.rest| < length.value then Fail
      else
        var body, rest := length.rest[..length.value], length.rest[length.value..];
        if !IsConstructedTag(bs[0]) then Ok(Primitive(bs[0], body), rest)
        else
          match DecodeAll(body)
          case None => Fail
          case Some(items) => Ok(Constructed(bs[0], items), rest)
  }

  /** Reads values until `bs` is used up. */
  function DecodeAll(bs: seq<Byte>): Option<seq<Node>>
    decreases |bs|, 1
  {
    if bs == [] then Some([])
    else
      match Decode(bs)
      case Fail => None
      case Ok(first, rest) =>
        match DecodeAll(rest)
        case None => None
        case Some(others) => Some([first] + others)
  }

  /** A value is read back exactly, whatever octets follow it. */
  lemma {:induction false} RoundTrip(node: Node, rest: seq<Byte>)
    requires Encodable(node)
    ensures Decode(Encode(node) + rest) == Ok(node, rest)
    decreases node, 0
  {
    match node
    case Primitive(tag, body) =>
      ConcatOne(body);
      TlvFront(tag, [body], rest);
    case Constructed(tag, items) =>
      TlvFront(tag, EncodeEach(items), rest);
      RoundTripAll(items);
  }

  lemma ConcatOne(body: seq<Byte>)
    ensures Concat([body]) == body
  {
    assert Concat([body]) == body + Concat([]);
  }

  lemma {:induction false} RoundTripAll(items: seq<Node>)
    requires EncodableEach(items)
    ensures DecodeAll(Concat(EncodeEach(items))) == Some(items)
    decreases items, 1
  {
    if items != [] {
      var others := Concat(EncodeEach(items[1..]));
      assert Concat(EncodeEach(items)) == Encode(items[0]) + others by {
        assert EncodeEach(items)[1..] == EncodeEach(items[1..]);
      }
      RoundTrip(items[0], others);
      RoundTripAll(items[1..]);
      assert items == [items[0]] + items[1..];
    }
  }

  /** The reader accepts nothing but encodings: every parse is the encoding of the value it yields. */
  lemma {:induction false} DecodeIsCanonical(bs: seq<Byte>)
    requires |bs| <= 0x1F_FFFF_FFFF_FFFF
    requires Decode(bs).Ok?
    ensures Encodable(Decode(bs).value)
    ensures bs == Encode(Decode(bs).value) + Decode(bs).rest
    decreases |bs|, 0
  {
    var body, rest := DecodeFront(bs);
    if IsConstructedTag(bs[0]) {
      DecodeAllIsCanonical(body);
      TlvIs(bs[0], EncodeEach(DecodeAll(body).value));
    } else {
      ConcatOne(body);
      TlvIs(bs[0], [body]);
    }
  }

  /** The identifier, the minimal length and the body that a successful read found. */
  lemma DecodeFront(bs: seq<Byte>) returns (body: seq<Byte>, rest: seq<Byte>)
    requires |bs| <= 0x1F_FFFF_FFFF_FFFF
    requires Decode(bs).Ok?
    ensures bs == [bs[0]] + Length(|body|) + body + rest
    ensures |body| < |bs| && IsLowTag(bs[0])
    ensures Decode(bs) ==
            if IsConstructedTag(bs[0]) then
              (if DecodeAll(body).Some? then Ok(Constructed(bs[0], DecodeAll(body).value), rest) else Fail)
            else Ok(Primitive(bs[0], body), rest)
  {
    hide Length, ReadLength;
    var length := ReadLength(bs[1..]);
    LengthShrinks(bs[1..]);
    LengthIsCanonical(bs[1..]);
    body, rest := length.rest[..length.value], length.rest[length.value..];
    assert length.rest == body + rest;
    assert bs == [bs[0]] + bs[1..];
  }

  lemma {:induction false} DecodeAllIsCanonical(bs: seq<Byte>)
    requires |bs| <= 0x1F_FFFF_FFFF_FFFF
    requires DecodeAll(bs).Some?
    ensures EncodableEach(DecodeAll(bs).value)
    ensures bs == Concat(EncodeEach(DecodeAll(bs).value))
    decreases |bs|, 1
  {
    if bs != [] {
      DecodeIsCanonical(bs);
      var Ok(first, rest) := Decode(bs);
      DecodeAllIsCanonical(rest);
      var items := DecodeAll(bs).value;
      assert items[1..] == DecodeAll(rest).value;
      assert EncodeEach(items)[1..] == EncodeEach(items[1..]);
    }
  }

  /** Encodings are prefix-free and injective: octets that start with two encodings start with one. */
  lemma UniqueParse(a: Node, b: Node, afterA: seq<Byte>, afterB: seq<Byte>)
    requires Encodable(a) && Encodable(b)
    requires Encode(a) + afterA == Encode(b) + afterB
    ensures a == b && afterA == afterB
  {
    RoundTrip(a, afterA);
    RoundTrip(b, afterB);
  }

  // ----- The constructors the certificate is built from -----

  function Sequence(contents: seq<seq<Byte>>): seq<Byte> { Tlv(0x30, contents) }

  function SetOf(contents: seq<seq<Byte>>): seq<Byte> { Tlv(0x31, contents) }

  function Integer(value: seq<Byte>): seq<Byte> { Tlv(0x02, [value]) }

  function OctetString(value: seq<Byte>): seq<Byte> { Tlv(0x04, [value]) }

  function Utf8(text: seq<Byte>): seq<Byte> { Tlv(0x0C, [text]) }

  function UtcTime(text: seq<Byte>): seq<Byte> { Tlv(0x17, [text]) }

  /** The universal tag numbers of X.690 that these stand for, with bit 6 set for the constructed two. */
  datatype Universal = IntegerTag | OctetStringTag | Utf8StringTag | UtcTimeTag

  function TagNumber(kind: Universal): Byte {
    match kind case IntegerTag => 2 case OctetStringTag => 4 case Utf8StringTag => 12 case UtcTimeTag => 23
  }

  function Written(kind: Universal, value: seq<Byte>): seq<Byte> {
    match kind
    case IntegerTag => Integer(value)
    case OctetStringTag => OctetString(value)
    case Utf8StringTag => Utf8(value)
    case UtcTimeTag => UtcTime(value)
  }

  /** Each simple value is read back under its tag number, whatever follows. */
  lemma SimpleIsRead(kind: Universal, value: seq<Byte>, rest: seq<Byte>)
    requires |value| <= 0x1F_FFFF_FFFF_FFFF
    ensures Decode(Written(kind, value) + rest) == Ok(Primitive(TagNumber(kind), value), rest)
  {
    hide Tlv;
    RoundTrip(Primitive(TagNumber(kind), value), rest);
  }

  /** A sequence (16) and a set (17) of encoded items are read back as those items. */
  lemma GroupIsRead(items: seq<Node>, rest: seq<Byte>)
    requires EncodableEach(items) && |Concat(EncodeEach(items))| <= 0x1F_FFFF_FFFF_FFFF
    ensures Decode(Sequence(EncodeEach(items)) + rest) == Ok(Constructed(0x20 + 16, items), rest)
    ensures Decode(SetOf(EncodeEach(items)) + rest) == Ok(Constructed(0x20 + 17, items), rest)
  {
    hide Tlv, Decode;
    RoundTrip(Constructed(0x30, items), rest);
    RoundTrip(Constructed(0x31, items), rest);
  }

  // ----- Object identifiers -----

  /** ECMAScript `ToInt32`: the conversion that `&` and `>>` apply to a number first. */
  function ToInt32(n: int): int {
    var m := n % 0x1_0000_0000;
    if m < 0x8000_0000 then m else m - 0x1_0000_0000
  }

  /** The octets that continue a subidentifier: base-128 digits with bit 8 set. */
  function Continuation(value: int): seq<Byte> {
    if value <= 0 then [] else Continuation(value / 128) + [value % 128 + 0x80]
  }

  function Arc(arc: nat): seq<Byte> {
    Continuation(ToInt32(arc) / 128) + [arc % 128]
  }

  function Arcs(arcs: seq<nat>): seq<Byte> {
    if arcs == [] then [] else Arc(arcs[0]) + Arcs(arcs[1..])
  }

  /** The contents of an object identifier; missing arcs count as zero, and the first two share
      one number that the buffer cuts to one octet. */
  function OidBody(arcs: seq<nat>): seq<Byte> {
    var first := if |arcs| > 0 then arcs[0] else 0;
    var second := if |arcs| > 1 then arcs[1] else 0;
    [(40 * first + second) % 256] + Arcs(if |arcs| > 2 then arcs[2..] else [])
  }

  function Oid(arcs: seq<nat>): seq<Byte> {
    Tlv(0x06, [OidBody(arcs)])
  }

  /** The loop over one arc: unshift seven bits at a time while the shifted value stays positive. */
  method ArcOctets(arc: nat) returns (chunk: seq<Byte>)
    ensures chunk == Arc(arc)
  {
    chunk := [arc % 128];
    var value := ToInt32(arc) / 128;
    while value > 0
      invariant Continuation(value) + chunk == Arc(arc)
      decreases value
    {
      assert Continuation(value) + chunk == Continuation(value / 128) + ([value % 128 + 0x80] + chunk);
      chunk := [value % 128 + 0x80] + chunk;
      value := value / 128;
    }
  }

  /** The loop over all arcs. A strict reader finds one object identifier in the result, universal tag
      number 6, and in it the arcs, exactly when they fit. */
  method OidOctets(arcs: seq<nat>) returns (octets: seq<Byte>)
    ensures octets == Oid(arcs)
    ensures |octets| <= 0x1F_FFFF_FFFF_FFFF ==>
        var read := Decode(octets);
        && read.Ok? && read.rest == [] && read.value.Primitive? && read.value.tag == 6
        && (ReadOidBody(read.value.body) == Some(arcs) <==> OidFits(arcs))
  {
    if |Oid(arcs)| <= 0x1F_FFFF_FFFF_FFFF {
      TlvIs(0x06, [OidBody(arcs)]);
      ConcatOne(OidBody(arcs));
      OidIsRead(arcs, []);
    }
    hide Arc, Tlv;
    var first := if |arcs| > 0 then arcs[0] else 0;
    var second := if |arcs| > 1 then arcs[1] else 0;
    var others := if |arcs| > 2 then arcs[2..] else [];
    var bytes: seq<Byte> := [(40 * first + second) % 256];
    for i := 0 to |others|
      invariant bytes + Arcs(others[i..]) == OidBody(arcs)
    {
      var chunk := ArcOctets(others[i]);
      assert others[i..][1..] == others[i + 1..];
      bytes := bytes + chunk;
    }
    assert others[|others|..] == [];
    assert bytes == OidBody(arcs);
    octets := Tlv(0x06, [bytes]);
  }

  /** Subidentifiers (X.690 section 8.19.2): base 128, no leading 0x80, bit 8 clear on the last octet
      only. `value` is what the octets of the current subidentifier gave so far. */
  function Subidentifiers(bs: seq<Byte>, value: nat, started: bool): Option<seq<nat>> {
    if bs == [] then (if started then None else Some([]))
    else if !started && bs[0] == 0x80 then None
    else if bs[0] >= 0x80 then Subidentifiers(bs[1..], 128 * value + bs[0] % 128, true)
    else
      match Subidentifiers(bs[1..], 0, false)
      case None => None
      case Some(others) => Some([128 * value + bs[0]] + others)
  }

  /** The arcs of an object identifier (X.690 section 8.19.4): the first subidentifier holds two. */
  function ReadOidBody(bs: seq<Byte>): Option<seq<nat>> {
    match Subidentifiers(bs, 0, false)
    case None => None
    case Some(subs) =>
      if subs == [] then None
      else
        var root := if subs[0] < 40 then 0 else if subs[0] < 80 then 1 else 2;
        Some([root, subs[0] - 40 * root] + subs[1..])
  }

  function Prepend(n: nat, tail: Option<seq<nat>>): Option<seq<nat>> {
    if tail.None? then None else Some([n] + tail.value)
  }

  lemma {:induction false} ContinuationRead(value: nat, rest: seq<Byte>)
    requires value > 0
    ensures Subidentifiers(Continuation(value) + rest, 0, false) == Subidentifiers(rest, value, true)
  {
    var last: Byte := value % 128 + 0x80;
    if value / 128 > 0 {
      ContinuationRead(value / 128, [last] + rest);
      assert Continuation(value) + rest == Continuation(value / 128) + ([last] + rest);
      assert ([last] + rest)[1..] == rest;
    } else {
      assert Continuation(value) + rest == [last] + rest;
      assert ([last] + rest)[1..] == rest;
    }
  }

  /** What the octets of one arc say: the arc below 2^31, something smaller from there on. */
  lemma ArcRead(arc: nat, rest: seq<Byte>) returns (read: nat)
    ensures Subidentifiers(Arc(arc) + rest, 0, false) == Prepend(read, Subidentifiers(rest, 0, false))
    ensures read == arc <==> arc < 0x8000_0000
  {
    var high := ToInt32(arc) / 128;
    var low: Byte := arc % 128;
    var tail := [low] + rest;
    assert tail[1..] == rest;
    read := (if high > 0 then 128 * high else 0) + low;
    if high > 0 {
      ContinuationRead(high, tail);
      assert Arc(arc) + rest == Continuation(high) + tail;
    } else {
      assert Arc(arc) + rest == tail;
    }
    ArcValue(arc);
  }

  /** What 32-bit arithmetic leaves of an arc. */
  lemma ArcValue(arc: nat)
    ensures var high := ToInt32(arc) / 128;
            (if high > 0 then 128 * high else 0) + arc % 128 == arc <==> arc < 0x8000_0000
  {
    var high := ToInt32(arc) / 128;
    assert high <= 0xFF_FFFF;
  }

  /** The octets of one arc are read back as that arc exactly when it is below 2^31: from there on the
      32-bit shift loses its high bits. */
  lemma ArcRoundTripIff(arc: nat, rest: seq<Byte>)
    requires Subidentifiers(rest, 0, false).Some?
    ensures Subidentifiers(Arc(arc) + rest, 0, false) == Prepend(arc, Subidentifiers(rest, 0, false))
        <==> arc < 0x8000_0000
  {
    var read := ArcRead(arc, rest);
    PrependIsInjective(read, arc, Subidentifiers(rest, 0, false).value, Subidentifiers(rest, 0, false).value);
  }

  lemma PrependIsInjective(n: nat, m: nat, ns: seq<nat>, ms: seq<nat>)
    ensures [n] + ns == [m] + ms <==> n == m && ns == ms
  {
    assert ([n] + ns)[0] == n && ([n] + ns)[1..] == ns;
    assert ([m] + ms)[0] == m && ([m] + ms)[1..] == ms;
  }

  ghost predicate AllNarrow(arcs: seq<nat>) {
    forall i | 0 <= i < |arcs| :: arcs[i] < 0x8000_0000
  }

  /** Reading the arcs after the first octet always succeeds, one number per arc, and gives the arcs
      themselves exactly when all are below 2^31. */
  lemma {:induction false} ArcsRead(arcs: seq<nat>) returns (read: seq<nat>)
    ensures Subidentifiers(Arcs(arcs), 0, false) == Some(read)
    ensures |read| == |arcs|
    ensures read == arcs <==> AllNarrow(arcs)
  {
    if arcs == [] {
      return [];
    }
    var others := ArcsRead(arcs[1..]);
    var first := ArcRead(arcs[0], Arcs(arcs[1..]));
    read := [first] + others;
    PrependIsInjective(first, arcs[0], others, arcs[1..]);
    assert arcs == [arcs[0]] + arcs[1..];
    assert AllNarrow(arcs) <==> arcs[0] < 0x8000_0000 && AllNarrow(arcs[1..]);
  }

  /** When an octet with bit 8 set comes first it swallows the next subidentifier: none is left over
      to stand for the first two arcs. */
  lemma {:induction false} StartedMergesOne(bs: seq<Byte>, value: nat)
    requires Subidentifiers(bs, 0, false).Some?
    ensures var merged := Subidentifiers(bs, value, true);
            merged.Some? ==> |merged.value| == |Subidentifiers(bs, 0, false).value|
  {
    if bs != [] {
      StartedSameCount(bs[1..], 128 * value + bs[0] % 128, bs[0] % 128);
    }
  }

  lemma {:induction false} StartedSameCount(bs: seq<Byte>, v: nat, w: nat)
    ensures Subidentifiers(bs, v, true).Some? == Subidentifiers(bs, w, true).Some?
    ensures Subidentifiers(bs, v, true).Some?
        ==> |Subidentifiers(bs, v, true).value| == |Subidentifiers(bs, w, true).value|
  {
    if bs != [] && bs[0] >= 0x80 {
      StartedSameCount(bs[1..], 128 * v + bs[0] % 128, 128 * w + bs[0] % 128);
    }
  }

  /** The arcs for which the encoder is right. */
  ghost predicate OidFits(arcs: seq<nat>) {
    && |arcs| >= 2
    && arcs[0] <= 2
    && (arcs[0] < 2 ==> arcs[1] < 40)
    && 40 * arcs[0] + arcs[1] < 128
    && AllNarrow(arcs[2..])
  }

  /** The one octet for the first two arcs gives them back exactly when they fit it. */
  lemma FirstOctet(a: nat, b: nat, head: nat)
    requires head == (40 * a + b) % 256 < 0x80
    ensures var root := if head < 40 then 0 else if head < 80 then 1 else 2;
            (root == a && head - 40 * root == b) <==> (a <= 2 && (a < 2 ==> b < 40) && 40 * a + b < 128)
  {
  }

  lemma OidRead(head: Byte, others: seq<nat>) returns (read: seq<nat>)
    requires head < 0x80
    ensures var root := if head < 40 then 0 else if head < 80 then 1 else 2;
            ReadOidBody([head] + Arcs(others)) == Some([root, head - 40 * root] + read)
    ensures |read| == |others| && (read == others <==> AllNarrow(others))
  {
    read := ArcsRead(others);
    assert ([head] + Arcs(others))[1..] == Arcs(others);
    assert Subidentifiers([head] + Arcs(others), 0, false) == Some([head] + read);
    assert ([head] + read)[1..] == read;
  }

  lemma OidUnread(head: Byte, others: seq<nat>)
    requires head >= 0x80
    ensures var read := ReadOidBody([head] + Arcs(others));
            read.Some? ==> |read.value| == |others| + 1
  {
    var bs := Arcs(others);
    assert ([head] + bs)[1..] == bs;
    var read := ArcsRead(others);
    if head > 0x80 {
      StartedMergesOne(bs, head % 128);
    }
  }

  /** An object identifier is read back exactly when there are two arcs or more, the first two share
      one subidentifier below 128, and every later arc is below 2^31. */
  lemma OidRoundTripIff(arcs: seq<nat>)
    ensures ReadOidBody(OidBody(arcs)) == Some(arcs) <==> OidFits(arcs)
  {
    var others := if |arcs| > 2 then arcs[2..] else [];
    var head: Byte := OidBody(arcs)[0];
    assert OidBody(arcs) == [head] + Arcs(others);
    if head >= 0x80 {
      OidUnread(head, others);
    } else {
      var read := OidRead(head, others);
      if |arcs| >= 2 {
        FirstOctet(arcs[0], arcs[1], head);
        var root := if head < 40 then 0 else if head < 80 then 1 else 2;
        PairIsInjective([root, head - 40 * root], read, arcs);
      }
    }
  }

  /** The whole object identifier, followed by anything, is read as one item of universal tag number 6. */
  lemma OidIsRead(arcs: seq<nat>, rest: seq<Byte>)
    requires |OidBody(arcs)| <= 0x1F_FFFF_FFFF_FFFF
    ensures Decode(Oid(arcs) + rest) == Ok(Primitive(6, OidBody(arcs)), rest)
    ensures Decode(Oid(arcs)) == Ok(Primitive(6, OidBody(arcs)), [])
    ensures ReadOidBody(OidBody(arcs)) == Some(arcs) <==> OidFits(arcs)
  {
    hide OidBody, Tlv, ReadOidBody;
    RoundTrip(Primitive(6, OidBody(arcs)), rest);
    RoundTrip(Primitive(6, OidBody(arcs)), []);
    assert Oid(arcs) + [] == Oid(arcs);
    OidRoundTripIff(arcs);
  }

  lemma PairIsInjective(pair: seq<nat>, tail: seq<nat>, arcs: seq<nat>)
    requires |pair| == 2 <= |arcs|
    ensures pair + tail == arcs <==> pair[0] == arcs[0] && pair[1] == arcs[1] && tail == arcs[2..]
  {
    assert (pair + tail)[2..] == tail;
    assert arcs == [arcs[0], arcs[1]] + arcs[2..];
  }
}
