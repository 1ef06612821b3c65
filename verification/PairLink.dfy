/** The pairing link shown as a QR code, and how a reader of URIs takes it apart
    (percent-encoding as in sections 2.1 and 2.3 of RFC 3986). */
module PairLink {
  import opened Foundations
  import Text

  // ---- percent-encoding ----

  predicate Unreserved(b: u8)
  {
    'A' as int <= b <= 'Z' as int || 'a' as int <= b <= 'z' as int || '0' as int <= b <= '9' as int
    || b == '-' as int || b == '_' as int || b == '.' as int || b == '~' as int
  }

  function UpperHex(n: int): char
    requires 0 <= n < 16
  {
    if n < 10 then ('0' as int + n) as char else ('A' as int + n - 10) as char
  }

  function EncodedByte(b: u8): string
  {
    if Unreserved(b) then [b as char] else ['%', UpperHex(b / 16), UpperHex(b % 16)]
  }

  function Encoded(s: Bytes): string
  {
    if s == [] then [] else Encoded(s[..|s| - 1]) + EncodedByte(s[|s| - 1])
  }

  /** A reader's view: a percent sign and two hexadecimal digits of either case stand for a
      byte, an unreserved character for itself. */
  function Decoded(t: string): Option<Bytes>
  {
    if t == [] then Some([])
    else if t[0] == '%' then
      if |t| < 3 || Text.HexValue(t[1]).None? || Text.HexValue(t[2]).None? then None
      else
        var rest := Decoded(t[3..]);
        if rest.None? then None
        else
          Some([16 * Text.HexValue(t[1]).value + Text.HexValue(t[2]).value] + rest.value)
    else if t[0] as int < 0x100 && Unreserved(t[0] as int) then
      var rest := Decoded(t[1..]);
      if rest.None? then None else Some([t[0] as int] + rest.value)
    else None
  }

  method PercentEncode(s: Bytes) returns (out: string)
    ensures out == Encoded(s)
    ensures Decoded(out) == Some(s)
    ensures forall c :: c in out ==> c == '%' || (c as int < 0x100 && Unreserved(c as int))
  {
    out := "";
    for i := 0 to |s|
      invariant out == Encoded(s[..i])
    {
      assert s[..i + 1][..i] == s[..i];
      if Unreserved(s[i]) {
        out := out + [s[i] as char];
      } else {
        out := out + ['%', UpperHex(s[i] / 16), UpperHex(s[i] % 16)];
      }
    }
    assert s[..|s|] == s;
    DecodesBack(s);
    OnlySafe(s);
  }

  /** The unreserved characters of section 2.3: letters, digits and four marks. */
  lemma UnreservedAre(b: u8)
    ensures var c := b as char;
      Unreserved(b) <==> ('A' <= c <= 'Z') || ('a' <= c <= 'z') || ('0' <= c <= '9') || c in "-_.~"
  {
  }

  /** Any other byte is a percent sign and its two hexadecimal digits, in capitals. */
  lemma EscapeIs(b: u8)
    requires !Unreserved(b)
    ensures var digits := "0123456789ABCDEF"; EncodedByte(b) == ['%', digits[b / 16], digits[b % 16]]
  {
  }

  lemma HexReadsBack(n: int)
    requires 0 <= n < 16
    ensures Text.HexValue(UpperHex(n)) == Some(n)
  {
  }

  lemma {:induction false} DecodeGoesOn(s: Bytes, t: string)
    ensures Decoded(Encoded(s) + t) == if Decoded(t).None? then None else Some(s + Decoded(t).value)
  {
    hide EncodedByte, Decoded;
    if s == [] {
      assert Encoded(s) + t == t;
      assert Decoded(t).Some? ==> s + Decoded(t).value == Decoded(t).value;
    } else {
      var init, b := s[..|s| - 1], s[|s| - 1];
      DecodeGoesOn(init, EncodedByte(b) + t);
      assert Encoded(s) + t == Encoded(init) + (EncodedByte(b) + t);
      DecodeOne(b, t);
      assert Decoded(t).Some? ==> init + ([b] + Decoded(t).value) == s + Decoded(t).value;
    }
  }

  lemma DecodeOne(b: u8, t: string)
    ensures Decoded(EncodedByte(b) + t) == if Decoded(t).None? then None else Some([b] + Decoded(t).value)
  {
    if Unreserved(b) {
      assert ([b as char] + t)[1..] == t;
    } else {
      HexReadsBack(b / 16);
      HexReadsBack(b % 16);
      assert (['%', UpperHex(b / 16), UpperHex(b % 16)] + t)[3..] == t;
    }
  }

  lemma DecodesBack(s: Bytes)
    ensures Decoded(Encoded(s)) == Some(s)
  {
    hide Encoded;
    DecodeGoesOn(s, []);
    assert Encoded(s) + [] == Encoded(s) && s + [] == s;
  }

  lemma {:induction false} OnlySafe(s: Bytes)
    ensures forall c :: c in Encoded(s) ==> c == '%' || (c as int < 0x100 && Unreserved(c as int))
  {
    if s != [] {
      OnlySafe(s[..|s| - 1]);
      var b := s[|s| - 1];
      forall c | c in EncodedByte(b) ensures c == '%' || (c as int < 0x100 && Unreserved(c as int)) {
      }
    }
  }

  /** No text that reads as `s` is shorter than its encoding. */
  lemma {:induction false} EncodedIsShortest(t: string, s: Bytes)
    requires Decoded(t) == Some(s)
    ensures |Encoded(s)| <= |t|
    decreases |t|
  {
    if t != [] {
      var k := if t[0] == '%' then 3 else 1;
      EncodedIsShortest(t[k..], s[1..]);
      EncodedSplits(s[0], s[1..]);
      assert s == [s[0]] + s[1..];
    }
  }

  lemma {:induction false} EncodedSplits(b: u8, s: Bytes)
    ensures Encoded([b] + s) == EncodedByte(b) + Encoded(s)
  {
    hide EncodedByte;
    var whole := [b] + s;
    if s == [] {
      assert whole[..0] == [] && Encoded(whole) == [] + EncodedByte(b);
    } else {
      EncodedSplits(b, s[..|s| - 1]);
      assert whole[..|whole| - 1] == [b] + s[..|s| - 1];
    }
  }

  // ---- the link ----

  const SCHEME := "carrier://pair"

  datatype Link = Link(host: Bytes, token: Bytes, fp: Bytes, mesh: Option<Bytes>)

  function LinkText(l: Link): string
  {
    SCHEME + "?" + "v=1" + "&" + "host=" + Encoded(l.host) + "&" + "token=" + Encoded(l.token)
    + "&" + "fp=" + Encoded(l.fp)
    + if l.mesh.Some? && l.mesh.value != [] then "&" + "mesh=" + Encoded(l.mesh.value) else ""
  }

  method BuildPairQr(hostBase: Bytes, token: Bytes, fp: Bytes, mesh: Option<Bytes>) returns (q: string)
    ensures q == LinkText(Link(hostBase, token, fp, mesh))
  {
    var host := PercentEncode(hostBase);
    var tok := PercentEncode(token);
    var finger := PercentEncode(fp);
    q := SCHEME + "?" + "v=1" + "&" + "host=" + host + "&" + "token=" + tok + "&" + "fp=" + finger;
    if mesh.Some? && mesh.value != [] {
      q := q + ("&" + "mesh=");
      var m := PercentEncode(mesh.value);
      q := q + m;
    }
  }

  // ---- reading it ----

  datatype Field = Field(key: string, value: Bytes)

  function ReadField(part: string): Option<Field>
  {
    var sides := Text.Split(part, '=');
    if |sides| != 2 || Decoded(sides[1]).None? then None else Some(Field(sides[0], Decoded(sides[1]).value))
  }

  function ReadFields(parts: seq<string>): Option<seq<Field>>
  {
    if parts == [] then Some([])
    else
      var first, rest := ReadField(parts[0]), ReadFields(parts[1..]);
      if first.None? || rest.None? then None else Some([first.value] + rest.value)
  }

  function ReadQuery(uri: string): Option<seq<Field>>
  {
    var sides := Text.Split(uri, '?');
    if |sides| != 2 || sides[0] != SCHEME then None else ReadFields(Text.Split(sides[1], '&'))
  }

  function FieldsOf(l: Link): seq<Field>
  {
    [Field("v", ['1' as int]), Field("host", l.host), Field("token", l.token), Field("fp", l.fp)]
    + if l.mesh.Some? && l.mesh.value != [] then [Field("mesh", l.mesh.value)] else []
  }

  function PartsOf(l: Link): seq<string>
  {
    ["v=1", "host=" + Encoded(l.host), "token=" + Encoded(l.token), "fp=" + Encoded(l.fp)]
    + if l.mesh.Some? && l.mesh.value != [] then ["mesh=" + Encoded(l.mesh.value)] else []
  }

  lemma EncodedFree(s: Bytes, sep: char)
    requires sep in "?&="
    ensures Text.Free(Encoded(s), sep)
  {
    OnlySafe(s);
  }

  lemma FieldReadsBack(key: string, value: Bytes)
    requires Text.Free(key, '=')
    ensures ReadField(key + "=" + Encoded(value)) == Some(Field(key, value))
  {
    EncodedFree(value, '=');
    Text.SplitAtFirst(key, '=', Encoded(value));
    Text.SplitFree(Encoded(value), '=');
    DecodesBack(value);
  }

  lemma JoinFour(a: string, b: string, c: string, d: string)
    ensures Text.JoinWith([a, b, c, d], ['&']) == a + "&" + b + "&" + c + "&" + d
  {
    assert Text.JoinWith([a], ['&']) == a;
    hide Text.JoinWith;
    Text.JoinSnoc([a], ['&'], b);
    Text.JoinSnoc([a, b], ['&'], c);
    Text.JoinSnoc([a, b, c], ['&'], d);
    assert [a] + [b] == [a, b] && [a, b] + [c] == [a, b, c] && [a, b, c] + [d] == [a, b, c, d];
  }

  lemma LinkIsJoined(l: Link)
    ensures LinkText(l) == SCHEME + ['?'] + Text.JoinWith(PartsOf(l), ['&'])
  {
    hide Encoded, Text.JoinWith;
    var a, b, c, d := "v=1", "host=" + Encoded(l.host), "token=" + Encoded(l.token), "fp=" + Encoded(l.fp);
    JoinFour(a, b, c, d);
    if l.mesh.Some? && l.mesh.value != [] {
      Text.JoinSnoc([a, b, c, d], ['&'], "mesh=" + Encoded(l.mesh.value));
    } else {
      assert PartsOf(l) == [a, b, c, d];
    }
  }

  /** Whatever the four strings hold, reading the link gives back exactly its fields, in
      order; an empty mesh name is as none. */
  lemma LinkReadsBack(l: Link)
    ensures ReadQuery(LinkText(l)) == Some(FieldsOf(l))
  {
    var p := PartsOf(l);
    LinkIsJoined(l);
    PartsFree(l);
    Text.SplitAtFirst(SCHEME, '?', Text.JoinWith(p, ['&']));
    JoinFree(p);
    Text.SplitFree(Text.JoinWith(p, ['&']), '?');
    Text.SplitUndoesJoin(p, '&');
    PartsRead(l);
  }

  lemma PartsFree(l: Link)
    ensures forall p :: p in PartsOf(l) ==> Text.Free(p, '&') && Text.Free(p, '?')
  {
    forall s: Bytes ensures Text.Free(Encoded(s), '&') && Text.Free(Encoded(s), '?') {
      EncodedFree(s, '&');
      EncodedFree(s, '?');
    }
  }

  lemma {:induction false} JoinFree(parts: seq<string>)
    requires forall p :: p in parts ==> Text.Free(p, '?')
    ensures Text.Free(Text.JoinWith(parts, ['&']), '?')
  {
    if |parts| == 1 {
      assert parts[0] in parts;
    } else if parts != [] {
      assert parts[0] in parts;
      JoinFree(parts[1..]);
    }
  }

  lemma PartsRead(l: Link)
    ensures ReadFields(PartsOf(l)) == Some(FieldsOf(l))
  {
    hide ReadField, Encoded;
    var p := PartsOf(l);
    VersionReads();
    assert "host=" == "host" + "=" && "token=" == "token" + "=" && "fp=" == "fp" + "=" && "mesh=" == "mesh" + "=";
    FieldReadsBack("host", l.host);
    FieldReadsBack("token", l.token);
    FieldReadsBack("fp", l.fp);
    if |p| == 5 {
      FieldReadsBack("mesh", l.mesh.value);
    }
    ReadEach(p, FieldsOf(l));
  }

  lemma {:induction false} ReadEach(parts: seq<string>, fields: seq<Field>)
    requires |parts| == |fields|
    requires forall i :: 0 <= i < |parts| ==> ReadField(parts[i]) == Some(fields[i])
    ensures ReadFields(parts) == Some(fields)
  {
    if parts != [] {
      ReadEach(parts[1..], fields[1..]);
      assert fields == [fields[0]] + fields[1..];
    }
  }

  lemma VersionReads()
    ensures ReadField("v=1") == Some(Field("v", ['1' as int]))
  {
    assert Encoded(['1' as int]) == "1" by {
      assert ['1' as int][..0] == [];
    }
    FieldReadsBack("v", ['1' as int]);
    assert "v" + "=" + "1" == "v=1";
  }

  /** So two links are the same text exactly when they say the same. */
  lemma SameLinkIff(a: Link, b: Link)
    ensures LinkText(a) == LinkText(b) <==> FieldsOf(a) == FieldsOf(b)
    ensures FieldsOf(a) == FieldsOf(b) <==>
      a.host == b.host && a.token == b.token && a.fp == b.fp && UnwrapOr(a.mesh, []) == UnwrapOr(b.mesh, [])
  {
    LinkReadsBack(a);
    LinkReadsBack(b);
    assert FieldsOf(a)[1] == Field("host", a.host) && FieldsOf(b)[1] == Field("host", b.host);
    assert FieldsOf(a)[2] == Field("token", a.token) && FieldsOf(b)[2] == Field("token", b.token);
    assert FieldsOf(a)[3] == Field("fp", a.fp) && FieldsOf(b)[3] == Field("fp", b.fp);
    assert FieldsOf(a) == FieldsOf(b) ==> |FieldsOf(a)| == |FieldsOf(b)|;
    if FieldsOf(a) == FieldsOf(b) && |FieldsOf(a)| == 5 {
      assert FieldsOf(a)[4] == Field("mesh", a.mesh.value) && FieldsOf(b)[4] == Field("mesh", b.mesh.value);
    }
  }
}
