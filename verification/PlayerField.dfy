/** From the url of an episode to the field that is encoded when it is played: the written text
    holds the encrypted url, and the request path finds it there. */
module PlayerField {
  import opened Options
  import opened Strings
  import opened PlaylistWire
  import Form = FormEncoding
  import TextOrder

  type Byte = Form.Byte

  // ------------------------------------------------------------------------ UTF-8

  /** The bytes of one character, as in section 3 of RFC 3629. */
  function Utf8Char(c: char): seq<Byte> {
    var n := c as int;
    if n < 0x80 then [n]
    else if n < 0x800 then [0xC0 + n / 64, 0x80 + n % 64]
    else if n < 0x1_0000 then [0xE0 + n / 4096, 0x80 + n / 64 % 64, 0x80 + n % 64]
    else [0xF0 + n / 262_144 % 8, 0x80 + n / 4096 % 64, 0x80 + n / 64 % 64, 0x80 + n % 64]
  }

  function Utf8(s: string): seq<Byte> { if s == "" then [] else Utf8Char(s[0]) + Utf8(s[1..]) }

  lemma {:induction false} Utf8Concat(a: string, b: string)
    ensures Utf8(a + b) == Utf8(a) + Utf8(b)
  {
    hide Utf8Char;
    if a == "" {
      assert a + b == b;
    } else {
      Utf8Concat(a[1..], b);
      assert (a + b)[1..] == a[1..] + b && (a + b)[0] == a[0];
      assert Utf8Char(a[0]) + (Utf8(a[1..]) + Utf8(b)) == Utf8Char(a[0]) + Utf8(a[1..]) + Utf8(b);
    }
  }

  predicate Ascii(s: string) { forall k :: 0 <= k < |s| ==> s[k] as int < 0x80 }

  lemma {:induction false} Utf8Ascii(s: string)
    requires Ascii(s)
    ensures |Utf8(s)| == |s| && forall k :: 0 <= k < |s| ==> Utf8(s)[k] == s[k] as int
  {
    if s != "" {
      Utf8Ascii(s[1..]);
    }
  }

  /** Bytes below 0x80 stand for themselves alone. */
  lemma LeadBytes(c: char)
    ensures |Utf8Char(c)| > 0
    ensures c as int >= 0x80 ==> forall k :: 0 <= k < |Utf8Char(c)| ==> Utf8Char(c)[k] >= 0x80
  {
  }

  lemma {:induction false} AsciiPrefix(s: string, p: string)
    requires Ascii(p)
    ensures Form.At(Utf8(s), Utf8(p), 0) <==> p <= s
  {
    if p != "" && s != "" {
      LeadBytes(s[0]);
      AsciiPrefix(s[1..], p[1..]);
      var c, t, q := Utf8Char(s[0]), Utf8(s[1..]), Utf8(p[1..]);
      assert Utf8(s) == c + t && Utf8(p) == [p[0] as int] + q;
      HeadTail(s);
      HeadTail(p);
      if s[0] == p[0] {
        assert c == [p[0] as int];
        HeadAt(p[0] as int, t, q);
      } else if Form.At(c + t, [p[0] as int] + q, 0) {
        assert (c + t)[0] == (c + t)[0..0 + |[p[0] as int] + q|][0] == p[0] as int;
        SameLead(s[0], p[0]);
      }
    } else if s == "" && p != "" {
      Utf8Ascii(p);
    }
  }

  lemma HeadAt(b: Byte, t: seq<Byte>, q: seq<Byte>)
    ensures Form.At([b] + t, [b] + q, 0) <==> Form.At(t, q, 0)
  {
    if Form.At(t, q, 0) {
      assert ([b] + t)[0..1 + |q|] == [b] + t[0..|q|];
    }
    if Form.At([b] + t, [b] + q, 0) {
      assert t[0..|q|] == ([b] + t)[0..1 + |q|][1..];
    }
  }

  lemma SameLead(c: char, d: char)
    requires d as int < 0x80 && Utf8Char(c)[0] == d as int
    ensures c == d
  {
  }

  /** A text of ASCII characters stands in the bytes exactly when it stands in the string. */
  lemma {:induction false} HoldsIff(s: string, p: string)
    requires Ascii(p) && p != ""
    ensures Form.Holds(Utf8(s), Utf8(p)) <==> Contains(s, p)
  {
    Utf8Ascii(p);
    AsciiPrefix(s, p);
    if s == "" {
      assert Contains(s, p) <==> p <= s;
    } else {
      HoldsIff(s[1..], p);
      LeadBytes(s[0]);
      HoldsBehind(Utf8Char(s[0]), Utf8(s[1..]), Utf8(p));
    }
  }

  /** Behind the bytes of one character, or at its start. */
  lemma HoldsBehind(c: seq<Byte>, t: seq<Byte>, p: seq<Byte>)
    requires |c| > 0 && |p| > 0 && p[0] < 0x80 && (|c| == 1 || forall k :: 0 <= k < |c| ==> c[k] >= 0x80)
    ensures Form.Holds(c + t, p) <==> Form.At(c + t, p, 0) || Form.Holds(t, p)
  {
    var s := c + t;
    if Form.Holds(s, p) {
      var i :| 0 <= i <= |s| && Form.At(s, p, i);
      assert s[i] == s[i..i + |p|][0];
      if i >= |c| {
        assert t[i - |c|..i - |c| + |p|] == s[i..i + |p|];
        assert Form.At(t, p, i - |c|);
      }
    }
    if Form.Holds(t, p) {
      var i :| 0 <= i <= |t| && Form.At(t, p, i);
      assert s[|c| + i..|c| + i + |p|] == t[i..i + |p|];
      assert Form.At(s, p, |c| + i);
    }
  }

  lemma {:induction false} Utf8Holds(s: string, c: char)
    requires c as int < 0x80
    ensures (c as int) in Utf8(s) <==> c in s
  {
    if s != "" {
      LeadBytes(s[0]);
      Utf8Holds(s[1..], c);
      HeadTail(s);
    }
  }

  /** The length that keys are measured by. */
  lemma {:induction false} Utf8LengthIs(s: string)
    ensures |Utf8(s)| == TextOrder.Utf8Length(s)
  {
    if s != "" {
      Utf8LengthIs(s[1..]);
    }
  }

  // -------------------------------------------------------------- the field that is encoded

  lemma QueryBytes(parser: string, url: string, token: string)
    ensures Utf8(PlayerPayload(parser, url, token)) == Form.PlayerQuery(Utf8(parser), Utf8(url), Utf8(token))
    ensures Utf8("url=") == Form.URL
  {
    hide Utf8, Utf8Char;
    Utf8Ascii("parse_api=");
    Utf8Ascii("&url=");
    Utf8Ascii("&token=");
    Utf8Ascii("url=");
    assert Utf8("parse_api=") == Form.PARSE_API;
    assert Utf8("&url=") == [Form.AND] + Form.URL;
    assert Utf8("&token=") == Form.TOKEN + [Form.EQUALS];
    Utf8Concat("parse_api=", parser);
    Utf8Concat("parse_api=" + parser, "&url=");
    Utf8Concat("parse_api=" + parser + "&url=", url);
    Utf8Concat("parse_api=" + parser + "&url=" + url, "&token=");
    Utf8Concat("parse_api=" + parser + "&url=" + url + "&token=", token);
    assert PlayerPayload(parser, url, token) == "parse_api=" + parser + "&url=" + url + "&token=" + token;
  }

  /** The episode is played through a parser, with its url encrypted. */
  ghost predicate Encrypted(c: Config, info: Info, e: SourceEpisode, url: string) {
    && e.SourceEpisode? && !HasAddress(c, e) && IsPlayable(c, info, e) && !c.pythonForm
    && c.encrypt(e.url) == Some(url)
  }

  /** For an episode that is played through a parser: the encrypted url stands in what is
      written for it, between `url=` and `&token`, and it is the field that the request path
      takes and encodes exactly when the parser holds no `url=` of its own. */
  lemma EncryptedUrlIsTaken(c: Config, info: Info, e: SourceEpisode, url: string, p: string)
    requires Encrypted(c, info, e, url) && PlayedBy(c, info, e, p)
    requires url != "" && '&' !in url
    ensures exists parser, before, behind ::
              && IsFirst([info.parse, info.parseApi], parser)
              && Utf8(p) == before + Utf8(url) + behind
              && (Form.UrlField(Utf8(p)) == Form.Ok((|before|, |before| + |Utf8(url)|)) <==> !Contains(parser, "url="))
  {
    hide Utf8, IsFirst, Address, HasAddress, Form.UrlField, Contains;
    var parser :| IsFirst([info.parse, info.parseApi], parser)
                  && p == "parse_api=" + parser + "&url=" + url + "&token=" + e.token;
    QueryBytes(parser, url, e.token);
    var before := Form.QueryHead(Utf8(parser)) + Form.URL;
    var behind := Form.TOKEN + [Form.EQUALS] + Utf8(e.token);
    assert Utf8(p) == before + Utf8(url) + behind;
    Utf8Holds(url, '&');
    NotEmptyBytes(url);
    Form.FieldIsUrlIff(Utf8(parser), Utf8(url), Utf8(e.token));
    HoldsIff(parser, "url=");
  }

  lemma NotEmptyBytes(s: string)
    requires s != ""
    ensures Utf8(s) != []
  {
    LeadBytes(s[0]);
  }

  /** So when the parser holds none, the request is what was written, with the encrypted url
      replaced by a field that decodes to it. */
  lemma EncryptedUrlIsEncoded(c: Config, info: Info, e: SourceEpisode, url: string, p: string, sent: seq<Byte>)
    requires Encrypted(c, info, e, url) && PlayedBy(c, info, e, p)
    requires url != "" && '&' !in url && !Contains(info.parse, "url=") && !Contains(info.parseApi, "url=")
    requires Form.UrlField(Utf8(p)).Ok?
    requires var (i, j) := Form.UrlField(Utf8(p)).value;
             sent == Utf8(p)[..i] + Form.Encode(Utf8(p)[i..j]) + Utf8(p)[j..]
    ensures exists before, field, behind ::
              Utf8(p) == before + Utf8(url) + behind && sent == before + field + behind
              && Form.Decode(field) == Utf8(url)
  {
    hide Utf8, Address, HasAddress, Form.UrlField, Form.Decode, Form.Encode, Contains;
    EncryptedUrlIsTaken(c, info, e, url, p);
    var parser, before, behind :|
      && IsFirst([info.parse, info.parseApi], parser) && Utf8(p) == before + Utf8(url) + behind
      && (Form.UrlField(Utf8(p)) == Form.Ok((|before|, |before| + |Utf8(url)|)) <==> !Contains(parser, "url="));
    EmptyHoldsNothing();
    assert !Contains(parser, "url=");
    Form.DecodeEncode(Utf8(url));
    assert Utf8(p)[..|before|] == before && Utf8(p)[|before|..|before| + |Utf8(url)|] == Utf8(url)
           && Utf8(p)[|before| + |Utf8(url)|..] == behind;
  }

  lemma EmptyHoldsNothing()
    ensures !Contains("", "url=")
  {
  }
}
