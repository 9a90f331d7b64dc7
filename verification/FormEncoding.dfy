/** Form bodies as bytes: the encoder of the request path, and the parser of section 5.1 of the
    WHATWG URL Standard that undoes it. */
module FormEncoding {

  type Byte = n: nat | n < 256

  const AND: Byte := 0x26
  const EQUALS: Byte := 0x3D
  const PLUS: Byte := 0x2B
  const PERCENT: Byte := 0x25
  const SPACE: Byte := 0x20

  // ------------------------------------------------------------- the encoder

  predicate Unreserved(b: Byte) {
    || 0x41 <= b <= 0x5A || 0x61 <= b <= 0x7A || 0x30 <= b <= 0x39
    || b == 0x2D || b == 0x5F || b == 0x2E || b == 0x2A
  }

  function HexDigit(d: nat): Byte
    requires d < 16
  {
    if d < 10 then 0x30 + d else 0x41 + (d - 10)
  }

  /** Section 5.2 of the URL Standard, for one byte. */
  function EncodeByte(b: Byte): seq<Byte> {
    if Unreserved(b) then [b]
    else if b == SPACE then [PLUS]
    else [PERCENT, HexDigit(b / 16), HexDigit(b % 16)]
  }

  function Encode(s: seq<Byte>): seq<Byte> {
    if s == [] then [] else Encode(s[..|s| - 1]) + EncodeByte(s[|s| - 1])
  }

  lemma EncodeNothing()
    ensures Encode([]) == []
  {
  }

  lemma EncodeNext(value: seq<Byte>, n: nat)
    requires n < |value|
    ensures Encode(value[..n + 1]) == Encode(value[..n]) + EncodeByte(value[n])
  {
    assert value[..n + 1][..n] == value[..n];
  }

  method AppendFormComponent(output: seq<Byte>, value: seq<Byte>) returns (grown: seq<Byte>)
    ensures grown == output + Encode(value)
  {
    hide HexDigit, Unreserved, Encode;
    EncodeNothing();
    grown := output;
    for n := 0 to |value|
      invariant grown == output + Encode(value[..n])
    {
      var b := value[n];
      EncodeNext(value, n);
      if Unreserved(b) {
        grown := grown + [b];
      } else if b == SPACE {
        grown := grown + [PLUS];
      } else {
        grown := grown + [PERCENT];
        grown := grown + [HexDigit(b / 16)];
        grown := grown + [HexDigit(b % 16)];
      }
    }
    assert value[..|value|] == value;
  }

  // -------------------------------------------------------------- the parser

  predicate IsHex(b: Byte) { 0x30 <= b <= 0x39 || 0x41 <= b <= 0x46 || 0x61 <= b <= 0x66 }

  function HexValue(b: Byte): (d: nat)
    requires IsHex(b)
    ensures d < 16
  {
    if b <= 0x39 then b - 0x30 else if b <= 0x46 then b - 0x41 + 10 else b - 0x61 + 10
  }

  /** Plus signs become spaces, and `%` with two hexadecimal digits becomes a byte. */
  function Decode(s: seq<Byte>): seq<Byte> {
    if s == [] then []
    else if s[0] == PLUS then [SPACE] + Decode(s[1..])
    else if s[0] == PERCENT && |s| > 2 && IsHex(s[1]) && IsHex(s[2]) then
      [16 * HexValue(s[1]) + HexValue(s[2])] + Decode(s[3..])
    else [s[0]] + Decode(s[1..])
  }

  function SplitBytes(s: seq<Byte>, at: Byte): (parts: seq<seq<Byte>>)
    ensures |parts| > 0
  {
    if s == [] then [[]]
    else if s[0] == at then [[]] + SplitBytes(s[1..], at)
    else
      var rest := SplitBytes(s[1..], at);
      [[s[0]] + rest[0]] + rest[1..]
  }

  /** The part before the first `=` and the part behind it. */
  function NameValue(s: seq<Byte>): (seq<Byte>, seq<Byte>) {
    if s == [] then ([], [])
    else if s[0] == EQUALS then ([], s[1..])
    else
      var (name, value) := NameValue(s[1..]);
      ([s[0]] + name, value)
  }

  function ParsePieces(pieces: seq<seq<Byte>>): seq<(seq<Byte>, seq<Byte>)> {
    if pieces == [] then []
    else
      var rest := ParsePieces(pieces[1..]);
      if pieces[0] == [] then rest
      else
        var (name, value) := NameValue(pieces[0]);
        [(Decode(name), Decode(value))] + rest
  }

  function FormParse(s: seq<Byte>): seq<(seq<Byte>, seq<Byte>)> { ParsePieces(SplitBytes(s, AND)) }

  // ------------------------------------------------------------ one component

  lemma HexBack(b: Byte)
    ensures IsHex(HexDigit(b / 16)) && IsHex(HexDigit(b % 16))
    ensures 16 * HexValue(HexDigit(b / 16)) + HexValue(HexDigit(b % 16)) == b
  {
  }

  lemma DecodeByte(b: Byte, rest: seq<Byte>)
    ensures Decode(EncodeByte(b) + rest) == [b] + Decode(rest)
  {
    var s := EncodeByte(b) + rest;
    if Unreserved(b) || b == SPACE {
      assert s[1..] == rest;
    } else {
      HexBack(b);
      assert s[3..] == rest;
    }
  }

  lemma {:induction false} DecodeFirst(s: seq<Byte>, rest: seq<Byte>)
    ensures Decode(Encode(s) + rest) == s + Decode(rest)
  {
    hide Decode, EncodeByte;
    if s == [] {
      assert Encode(s) + rest == rest;
    } else {
      var front, b := s[..|s| - 1], s[|s| - 1];
      assert Encode(s) + rest == Encode(front) + (EncodeByte(b) + rest);
      DecodeFirst(front, EncodeByte(b) + rest);
      DecodeByte(b, rest);
      assert s == front + [b];
    }
  }

  /** Percent-encoding is undone byte for byte. */
  lemma DecodeEncode(s: seq<Byte>)
    ensures Decode(Encode(s)) == s
  {
    DecodeFirst(s, []);
    assert Encode(s) + [] == Encode(s);
  }

  predicate Safe(b: Byte) { Unreserved(b) || b == PLUS || b == PERCENT }

  /** An encoded component never holds a separator, nor anything else but unreserved bytes,
      `+` and `%`. */
  lemma {:induction false} EncodeSafe(s: seq<Byte>, k: nat)
    requires k < |Encode(s)|
    ensures Safe(Encode(s)[k]) && Encode(s)[k] != AND && Encode(s)[k] != EQUALS
  {
    var front := s[..|s| - 1];
    if k < |Encode(front)| {
      EncodeSafe(front, k);
    }
  }

  /** A byte that has to be escaped. */
  predicate Reserved(b: Byte) { !Unreserved(b) && b != SPACE }

  predicate UpperHex(b: Byte) { 0x30 <= b <= 0x39 || 0x41 <= b <= 0x46 }

  /** At `i` stands a byte that means itself, a plus sign, or `%` and two digits, no letter of
      them small, for a byte that has to be escaped. */
  ghost predicate Proper(t: seq<Byte>, i: nat) {
    i < |t| ==>
      && Safe(t[i])
      && (t[i] == PERCENT ==>
            && i + 2 < |t| && UpperHex(t[i + 1]) && UpperHex(t[i + 2])
            && Reserved(16 * HexValue(t[i + 1]) + HexValue(t[i + 2])))
  }

  ghost predicate Canonical(t: seq<Byte>) { forall i: nat :: Proper(t, i) }

  lemma {:induction false} EncodeFront(b: Byte, s: seq<Byte>)
    ensures Encode([b] + s) == EncodeByte(b) + Encode(s)
  {
    hide EncodeByte;
    var whole := [b] + s;
    if s == [] {
      assert whole[..0] == [];
    } else {
      EncodeFront(b, s[..|s| - 1]);
      assert whole[..|whole| - 1] == [b] + s[..|s| - 1];
    }
  }

  lemma EscapedByte(b: Byte)
    requires Reserved(b)
    ensures EncodeByte(b) == [PERCENT, HexDigit(b / 16), HexDigit(b % 16)]
    ensures UpperHex(HexDigit(b / 16)) && UpperHex(HexDigit(b % 16))
  {
  }

  /** An escape is the one its byte gets. */
  lemma EscapeIs(high: Byte, low: Byte)
    requires UpperHex(high) && UpperHex(low)
    ensures var b := 16 * HexValue(high) + HexValue(low); HexDigit(b / 16) == high && HexDigit(b % 16) == low
  {
  }

  lemma CanonicalByte(b: Byte, t: seq<Byte>)
    requires Canonical(t)
    ensures Canonical(EncodeByte(b) + t)
  {
    hide HexDigit, HexValue;
    var code, whole := EncodeByte(b), EncodeByte(b) + t;
    forall i: nat ensures Proper(whole, i) {
      if i >= |code| {
        assert Proper(t, i - |code|);
        assert forall k :: |code| <= k < |whole| ==> whole[k] == t[k - |code|];
      } else if Reserved(b) {
        EscapedByte(b);
        HexBack(b);
        assert whole[1] == code[1] && whole[2] == code[2];
      }
    }
  }

  lemma {:induction false} EncodeCanonical(s: seq<Byte>)
    ensures Canonical(Encode(s))
  {
    hide Encode, EncodeByte, Canonical;
    if s == [] {
      NothingCanonical();
    } else {
      EncodeCanonical(s[1..]);
      EncodeFront(s[0], s[1..]);
      assert s == [s[0]] + s[1..];
      CanonicalByte(s[0], Encode(s[1..]));
    }
  }

  lemma NothingCanonical()
    ensures Encode([]) == [] && Canonical([])
  {
  }

  lemma RestCanonical(t: seq<Byte>, n: nat)
    requires Canonical(t) && n <= |t|
    ensures Canonical(t[n..])
  {
    var rest := t[n..];
    forall i: nat ensures Proper(rest, i) {
      assert Proper(t, i + n);
      assert forall k :: 0 <= k < |rest| ==> rest[k] == t[k + n];
    }
  }

  /** The first code of a canonical text is that of the byte it is decoded to. */
  lemma FirstCode(t: seq<Byte>) returns (b: Byte, n: nat)
    requires Canonical(t) && t != []
    ensures 0 < n <= |t| && t[..n] == EncodeByte(b) && Decode(t) == [b] + Decode(t[n..])
  {
    assert Proper(t, 0);
    if t[0] == PERCENT {
      b, n := 16 * HexValue(t[1]) + HexValue(t[2]), 3;
      EscapeIs(t[1], t[2]);
      EscapedByte(b);
    } else {
      b, n := if t[0] == PLUS then SPACE else t[0], 1;
      assert t[..1] == [t[0]];
    }
  }

  lemma {:induction false} CanonicalDecoded(t: seq<Byte>)
    requires Canonical(t)
    ensures t == Encode(Decode(t))
  {
    hide Canonical, Decode, Encode, EncodeByte;
    if t == [] {
      DecodeEncode([]);
      NothingCanonical();
    } else {
      var b, n := FirstCode(t);
      RestCanonical(t, n);
      CanonicalDecoded(t[n..]);
      EncodeFront(b, Decode(t[n..]));
      assert t == t[..n] + t[n..];
    }
  }

  /** The encoding of `s` is the one text for it that escapes only what has to be, with capital
      digits. */
  lemma EncodeIff(s: seq<Byte>, t: seq<Byte>)
    ensures t == Encode(s) <==> Decode(t) == s && Canonical(t)
  {
    hide Encode, Decode, Canonical;
    EncodeCanonical(s);
    DecodeEncode(s);
    if Canonical(t) {
      CanonicalDecoded(t);
    }
  }

  // ------------------------------------------------------------ a whole body

  lemma {:induction false} SplitBytesNone(s: seq<Byte>, at: Byte)
    requires at !in s
    ensures SplitBytes(s, at) == [s]
  {
    if s != [] {
      SplitBytesNone(s[1..], at);
      assert [s[0]] + s[1..] == s;
    }
  }

  lemma {:induction false} NameValueOf(name: seq<Byte>, value: seq<Byte>)
    requires EQUALS !in name
    ensures NameValue(name + [EQUALS] + value) == (name, value)
  {
    var s := name + [EQUALS] + value;
    if name == [] {
      assert s[1..] == value;
    } else {
      NameValueOf(name[1..], value);
      assert s[1..] == name[1..] + [EQUALS] + value;
      assert [name[0]] + name[1..] == name;
    }
  }

  /** A value of a request body, a number being given by its digits. */
  datatype Field = Text(value: seq<Byte>) | Number(digits: seq<Byte>) | Flag(on: bool) | Null | Compound

  datatype Body = Fields(fields: seq<(seq<Byte>, Field)>) | Other

  datatype Result<T> = Ok(value: T) | Err(code: Code)

  datatype Code = FormBodyInvalid | PlayerUrlMissing | PlayerTokenMissing

  const TRUE: seq<Byte> := [0x74, 0x72, 0x75, 0x65]
  const FALSE: seq<Byte> := [0x66, 0x61, 0x6C, 0x73, 0x65]

  predicate Flat(fields: seq<(seq<Byte>, Field)>) { forall f :: f in fields ==> !f.1.Compound? }

  function FieldText(f: Field): seq<Byte>
    requires !f.Compound?
  {
    match f
    case Text(value) => value
    case Number(digits) => digits
    case Flag(on) => if on then TRUE else FALSE
    case Null => []
  }

  ghost predicate Spells(text: seq<Byte>, s: string) {
    |text| == |s| && forall k :: 0 <= k < |s| ==> text[k] == s[k] as nat
  }

  /** A field with value `f` is sent as `text`. */
  ghost predicate SentAs(f: Field, text: seq<Byte>) {
    match f
    case Text(value) => text == value
    case Number(digits) => text == digits
    case Flag(on) => Spells(text, if on then "true" else "false")
    case Null => |text| == 0
    case Compound => false
  }

  /** Pair by pair, the names of the fields and what is sent for their values. */
  ghost predicate Sent(fields: seq<(seq<Byte>, Field)>, pairs: seq<(seq<Byte>, seq<Byte>)>) {
    && |pairs| == |fields|
    && forall k :: 0 <= k < |fields| ==> pairs[k].0 == fields[k].0 && SentAs(fields[k].1, pairs[k].1)
  }

  lemma PairsSent(fields: seq<(seq<Byte>, Field)>)
    requires Flat(fields)
    ensures Sent(fields, Pairs(fields))
  {
    hide SentAs;
    forall k | 0 <= k < |fields| ensures SentAs(fields[k].1, Pairs(fields)[k].1) {
      assert fields[k] in fields;
      FieldSent(fields[k].1);
    }
  }

  lemma FieldSent(f: Field)
    requires !f.Compound?
    ensures SentAs(f, FieldText(f))
  {
  }

  /** The pairs that a flat body stands for. */
  function Pairs(fields: seq<(seq<Byte>, Field)>): seq<(seq<Byte>, seq<Byte>)>
    requires Flat(fields)
  {
    seq(|fields|, k requires 0 <= k < |fields| => (fields[k].0, FieldText(fields[k].1)))
  }

  /** Section 5.2 of the URL Standard, for a list of pairs. */
  function Serialize(pairs: seq<(seq<Byte>, seq<Byte>)>): seq<Byte> {
    if pairs == [] then []
    else if |pairs| == 1 then Piece(pairs[0])
    else Serialize(pairs[..|pairs| - 1]) + [AND] + Piece(pairs[|pairs| - 1])
  }

  function Piece(p: (seq<Byte>, seq<Byte>)): seq<Byte> { Encode(p.0) + [EQUALS] + Encode(p.1) }

  lemma PieceParses(p: (seq<Byte>, seq<Byte>))
    ensures AND !in Piece(p) && Piece(p) != []
    ensures NameValue(Piece(p)).0 == Encode(p.0) && NameValue(Piece(p)).1 == Encode(p.1)
  {
    forall k | 0 <= k < |Encode(p.0)| ensures Encode(p.0)[k] != AND && Encode(p.0)[k] != EQUALS {
      EncodeSafe(p.0, k);
    }
    forall k | 0 <= k < |Encode(p.1)| ensures Encode(p.1)[k] != AND {
      EncodeSafe(p.1, k);
    }
    NameValueOf(Encode(p.0), Encode(p.1));
  }

  lemma {:induction false} SplitBytesLast(s: seq<Byte>, at: Byte, last: seq<Byte>)
    requires at !in last
    ensures SplitBytes(s + [at] + last, at) == SplitBytes(s, at) + [last]
  {
    if s == [] {
      assert s + [at] + last == [at] + last;
      SplitBytesNone(last, at);
    } else {
      SplitBytesLast(s[1..], at, last);
      assert (s + [at] + last)[1..] == s[1..] + [at] + last;
    }
  }

  lemma {:induction false} ParseLast(pieces: seq<seq<Byte>>, p: (seq<Byte>, seq<Byte>))
    ensures ParsePieces(pieces + [Piece(p)]) == ParsePieces(pieces) + [p]
  {
    hide Piece, Decode, NameValue;
    if pieces == [] {
      PieceParses(p);
      DecodeEncode(p.0);
      DecodeEncode(p.1);
      assert ([Piece(p)])[1..] == [];
    } else {
      ParseLast(pieces[1..], p);
      assert (pieces + [Piece(p)])[1..] == pieces[1..] + [Piece(p)];
    }
  }

  /** Form parsing gives the pairs back, whatever bytes they hold. */
  lemma {:induction false} ParseSerialize(pairs: seq<(seq<Byte>, seq<Byte>)>)
    ensures FormParse(Serialize(pairs)) == pairs
  {
    hide Piece, ParsePieces;
    if pairs == [] {
      NothingParses();
    } else {
      var front, p := pairs[..|pairs| - 1], pairs[|pairs| - 1];
      ParseSerialize(front);
      SerializedPieces(front, p);
      ParseLast(if front == [] then [] else SplitBytes(Serialize(front), AND), p);
      if front == [] {
        NothingParses();
      }
      assert pairs == front + [p];
    }
  }

  lemma NothingParses()
    ensures ParsePieces([]) == [] && FormParse([]) == []
  {
    assert SplitBytes([], AND) == [[]];
    var one: seq<seq<Byte>> := [[]];
    assert one[1..] == [];
  }

  lemma SerializedPieces(front: seq<(seq<Byte>, seq<Byte>)>, p: (seq<Byte>, seq<Byte>))
    ensures SplitBytes(Serialize(front + [p]), AND)
            == (if front == [] then [] else SplitBytes(Serialize(front), AND)) + [Piece(p)]
  {
    hide Piece, ParsePieces, SplitBytes;
    PieceParses(p);
    assert (front + [p])[..|front|] == front;
    if front == [] {
      SplitBytesNone(Piece(p), AND);
    } else {
      SplitBytesLast(Serialize(front), AND, Piece(p));
    }
  }

  lemma SerializeEmpty()
    ensures Serialize(Pairs([])) == []
  {
  }

  lemma SerializeNext(fields: seq<(seq<Byte>, Field)>, n: nat)
    requires n < |fields| && Flat(fields[..n]) && !fields[n].1.Compound?
    ensures Flat(fields[..n + 1])
    ensures Serialize(Pairs(fields[..n + 1]))
            == (if n > 0 then Serialize(Pairs(fields[..n])) + [AND] else [])
               + Piece((fields[n].0, FieldText(fields[n].1)))
  {
    hide Piece;
    var done := fields[..n + 1];
    assert done == fields[..n] + [fields[n]];
    assert Pairs(done)[..n] == Pairs(fields[..n]);
    assert Pairs(done)[n] == (fields[n].0, FieldText(fields[n].1));
  }

  /** The form body of a flat object; any nested value is an error. */
  method EncodeFormBody(body: Body) returns (r: Result<seq<Byte>>)
    ensures r.Ok? <==> body.Fields? && Flat(body.fields)
    ensures r.Err? ==> r.code == FormBodyInvalid
    ensures r.Ok? ==> FormParse(r.value) == Pairs(body.fields) && Sent(body.fields, FormParse(r.value))
    ensures r.Ok? ==> r.value == Serialize(Pairs(body.fields))
  {
    hide Encode, FormParse, Serialize, Sent;
    if body.Other? {
      return Err(FormBodyInvalid);
    }
    var fields := body.fields;
    var encoded: seq<Byte> := [];
    SerializeEmpty();
    for index := 0 to |fields|
      invariant Flat(fields[..index]) && encoded == Serialize(Pairs(fields[..index]))
    {
      var (key, value) := fields[index];
      ghost var before := encoded;
      if index > 0 {
        encoded := encoded + [AND];
      }
      encoded := AppendFormComponent(encoded, key);
      encoded := encoded + [EQUALS];
      if value.Compound? {
        assert fields[index] in fields;
        return Err(FormBodyInvalid);
      }
      encoded := AppendFormComponent(encoded, FieldText(value));
      SerializeNext(fields, index);
      assert encoded == (if index > 0 then before + [AND] else []) + Piece((key, FieldText(value)));
    }
    assert fields[..|fields|] == fields;
    ParseSerialize(Pairs(fields));
    PairsSent(fields);
    return Ok(encoded);
  }

  // --------------------------------------------- the url of a player request

  const URL: seq<Byte> := [0x75, 0x72, 0x6C, 0x3D]
  const TOKEN: seq<Byte> := [AND, 0x74, 0x6F, 0x6B, 0x65, 0x6E]

  /** `p` stands at position `i` of `s`. */
  predicate At(s: seq<Byte>, p: seq<Byte>, i: nat) { i + |p| <= |s| && s[i..i + |p|] == p }

  predicate Holds(s: seq<Byte>, p: seq<Byte>) { exists i :: 0 <= i <= |s| && At(s, p, i) }

  /** `s[from..].find(p)`, counted from the start of `s`. */
  function FindFrom(s: seq<Byte>, p: seq<Byte>, start: nat): (i: int)
    requires start <= |s|
    ensures i == -1 <==> forall k :: start <= k <= |s| ==> !At(s, p, k)
    ensures i != -1 ==> start <= i <= |s| && At(s, p, i) && forall k :: start <= k < i ==> !At(s, p, k)
    decreases |s| - start
  {
    if At(s, p, start) then start
    else if start == |s| then -1
    else FindFrom(s, p, start + 1)
  }

  /** Where the value of the first `url=` lies, up to the first `&token` behind it. */
  function UrlField(s: seq<Byte>): (r: Result<(nat, nat)>)
    ensures r.Ok? ==> r.value.0 < r.value.1 <= |s|
  {
    var i := FindFrom(s, URL, 0);
    if i == -1 then Err(PlayerUrlMissing)
    else
      var j := FindFrom(s, TOKEN, i + 4);
      if j == -1 then Err(PlayerTokenMissing)
      else if j == i + 4 then Err(PlayerUrlMissing)
      else Ok((i + 4, j))
  }

  /** The value of the first `url=` starts at `a`. */
  ghost predicate UrlStarts(s: seq<Byte>, a: nat) {
    a >= 4 && At(s, URL, a - 4) && forall k :: 0 <= k < a - 4 ==> !At(s, URL, k)
  }

  /** From `a` on the first `&token` stands at `b`. */
  ghost predicate TokenFollows(s: seq<Byte>, a: nat, b: nat) {
    a <= b && At(s, TOKEN, b) && forall k :: a <= k < b ==> !At(s, TOKEN, k)
  }

  ghost predicate NoUrl(s: seq<Byte>) { forall k: nat :: !At(s, URL, k) }

  ghost predicate NoTokenFrom(s: seq<Byte>, a: nat) { forall k: nat :: a <= k ==> !At(s, TOKEN, k) }

  /** Where the field lies, or what is missing: the url when there is no `url=` or nothing before
      the token. */
  ghost predicate FieldIs(s: seq<Byte>, r: Result<(nat, nat)>) {
    match r
    case Ok((a, b)) => a < b && UrlStarts(s, a) && TokenFollows(s, a, b)
    case Err(PlayerTokenMissing) => exists a: nat :: UrlStarts(s, a) && NoTokenFrom(s, a)
    case Err(PlayerUrlMissing) => NoUrl(s) || exists a: nat :: UrlStarts(s, a) && TokenFollows(s, a, a)
    case Err(FormBodyInvalid) => false
  }

  lemma UrlFieldIs(s: seq<Byte>)
    ensures FieldIs(s, UrlField(s))
  {
    BeyondNothing(s, URL);
    BeyondNothing(s, TOKEN);
    hide At;
    var i := FindFrom(s, URL, 0);
    if i != -1 {
      assert UrlStarts(s, i + 4);
    }
  }

  lemma BeyondNothing(s: seq<Byte>, p: seq<Byte>)
    ensures forall k: nat :: k > |s| ==> !At(s, p, k)
  {
  }

  /** Only the field changes, and form decoding gives its bytes back. The encoding loop is the
      one of `AppendFormComponent`. */
  method EncodePlayerUrlParameter(value: seq<Byte>) returns (r: Result<seq<Byte>>)
    ensures r.Ok? <==> UrlField(value).Ok?
    ensures r.Err? ==> r.code == UrlField(value).code
    ensures FieldIs(value, UrlField(value))
    ensures r.Ok? ==>
              var (i, j) := UrlField(value).value;
              exists field :: r.value == value[..i] + field + value[j..] && Decode(field) == value[i..j]
    ensures r.Ok? ==>
              var (i, j) := UrlField(value).value;
              r.value == value[..i] + Encode(value[i..j]) + value[j..]
  {
    UrlFieldIs(value);
    var at := FindFrom(value, URL, 0);
    if at == -1 {
      return Err(PlayerUrlMissing);
    }
    var urlStart := at + 4;
    var urlEnd := FindFrom(value, TOKEN, urlStart);
    if urlEnd == -1 {
      return Err(PlayerTokenMissing);
    }
    if urlStart == urlEnd {
      return Err(PlayerUrlMissing);
    }
    var field := value[urlStart..urlEnd];
    var encoded := AppendFormComponent(value[..urlStart], field);
    DecodeEncode(field);
    ghost var part := Encode(field);
    encoded := encoded + value[urlEnd..];
    return Ok(encoded);
  }

  /** `parse_api={parser}&url={url}&token={token}` */
  function PlayerQuery(parser: seq<Byte>, url: seq<Byte>, token: seq<Byte>): seq<Byte> {
    QueryHead(parser) + URL + url + TOKEN + [EQUALS] + token
  }

  const PARSE_API: seq<Byte> := [0x70, 0x61, 0x72, 0x73, 0x65, 0x5F, 0x61, 0x70, 0x69, EQUALS]

  function QueryHead(parser: seq<Byte>): seq<Byte> { PARSE_API + parser + [AND] }

  lemma AtMeans(s: seq<Byte>, p: seq<Byte>, i: nat)
    ensures At(s, p, i) <==> i + |p| <= |s| && forall k :: 0 <= k < |p| ==> s[i + k] == p[k]
  {
    if i + |p| <= |s| {
      var part := s[i..i + |p|];
      assert forall k :: 0 <= k < |p| ==> part[k] == s[i + k];
    }
  }

  lemma Mismatch(s: seq<Byte>, p: seq<Byte>, i: nat, k: nat)
    requires k < |p| && (i + |p| <= |s| ==> s[i + k] != p[k])
    ensures !At(s, p, i)
  {
    AtMeans(s, p, i);
  }

  /** Inside another sequence a pattern stands where it stands in the part. */
  lemma AtInside(before: seq<Byte>, part: seq<Byte>, behind: seq<Byte>, p: seq<Byte>, i: nat)
    requires i + |p| <= |part|
    ensures At(before + part + behind, p, |before| + i) <==> At(part, p, i)
  {
    var s := before + part + behind;
    assert s[|before| + i..|before| + i + |p|] == part[i..i + |p|];
  }

  /** Before the real field `url=` can only stand inside the parser. */
  lemma UrlInParser(parser: seq<Byte>, url: seq<Byte>, token: seq<Byte>, k: nat)
    requires k < |QueryHead(parser)|
    ensures At(PlayerQuery(parser, url, token), URL, k) <==> k >= |PARSE_API| && At(parser, URL, k - |PARSE_API|)
  {
    hide At;
    var s := PlayerQuery(parser, url, token);
    var behind := [AND] + URL + url + TOKEN + [EQUALS] + token;
    assert s == PARSE_API + parser + behind;
    var h := |QueryHead(parser)|;
    if k < |PARSE_API| {
      assert s[k] == PARSE_API[k];
      Mismatch(s, URL, k, 0);
    } else if k + 4 < h {
      AtInside(PARSE_API, parser, behind, URL, k - |PARSE_API|);
    } else {
      assert s[h - 1] == AND;
      Mismatch(s, URL, k, h - 1 - k);
      AtMeans(parser, URL, k - |PARSE_API|);
    }
  }

  lemma TokenBehindUrl(parser: seq<Byte>, url: seq<Byte>, token: seq<Byte>)
    requires AND !in url
    ensures var h := |QueryHead(parser)| + 4;
            h + |url| <= |PlayerQuery(parser, url, token)|
            && FindFrom(PlayerQuery(parser, url, token), TOKEN, h) == h + |url|
  {
    hide At;
    var s := PlayerQuery(parser, url, token);
    var h := |QueryHead(parser)| + 4;
    var before, behind := QueryHead(parser) + URL, TOKEN + [EQUALS] + token;
    assert s == before + url + behind;
    AtMeans(s, TOKEN, h + |url|);
    forall k | h <= k < h + |url| ensures !At(s, TOKEN, k) {
      assert s[k] == url[k - h];
      Mismatch(s, TOKEN, k, 0);
    }
  }

  /** For a request built from a parser, an encrypted url without `&` and a token, the field
      that is encoded is the encrypted url if and only if the parser holds no `url=`. */
  lemma FieldIsUrlIff(parser: seq<Byte>, url: seq<Byte>, token: seq<Byte>)
    requires url != [] && AND !in url
    ensures var start := |QueryHead(parser)| + 4;
            UrlField(PlayerQuery(parser, url, token)) == Ok((start, start + |url|)) <==> !Holds(parser, URL)
  {
    hide At;
    var s := PlayerQuery(parser, url, token);
    var h := |QueryHead(parser)|;
    AtMeans(s, URL, h);
    TokenBehindUrl(parser, url, token);
    if Holds(parser, URL) {
      var i :| 0 <= i <= |parser| && At(parser, URL, i);
      AtMeans(parser, URL, i);
      UrlInParser(parser, url, token, |PARSE_API| + i);
    } else {
      forall k | 0 <= k < h ensures !At(s, URL, k) {
        UrlInParser(parser, url, token, k);
      }
    }
  }

  /** A parser that ends in its own `url=` is such a case: with it another field is encoded. */
  lemma NestedUrlIsTaken(host: seq<Byte>, url: seq<Byte>, token: seq<Byte>)
    requires url != [] && AND !in url
    ensures var parser := host + [0x3F] + URL;
            var start := |QueryHead(parser)| + 4;
            UrlField(PlayerQuery(parser, url, token)) != Ok((start, start + |url|))
  {
    hide UrlField, PlayerQuery, QueryHead;
    var parser := host + [0x3F] + URL;
    assert At(parser, URL, |host| + 1);
    FieldIsUrlIff(parser, url, token);
  }
}
