/** Reading the payload segment of an ID token: split at dots, pad, decode. */
module Base64Url {
  import opened Wrappers

  type Byte = n: int | 0 <= n < 256
  type Sextet = n: int | 0 <= n < 64

  // ----- The alphabet of section 5 of RFC 4648 -----

  function Letter(v: Sextet): char {
    if v < 26 then 'A' + v as char
    else if v < 52 then 'a' + (v - 26) as char
    else if v < 62 then '0' + (v - 52) as char
    else if v == 62 then '-' else '_'
  }

  /** The value of a character. Python translates `-` and `_` to `+` and `/`
      before decoding, so all four are read. */
  function ValueOf(c: char): Option<Sextet> {
    if 'A' <= c <= 'Z' then Some(c as int - 'A' as int)
    else if 'a' <= c <= 'z' then Some(c as int - 'a' as int + 26)
    else if '0' <= c <= '9' then Some(c as int - '0' as int + 52)
    else if c == '-' || c == '+' then Some(62)
    else if c == '_' || c == '/' then Some(63)
    else None
  }

  lemma LetterRead(v: Sextet)
    ensures ValueOf(Letter(v)) == Some(v) && Letter(v) != '=' && Letter(v) != '.'
  {
  }

  // ----- Encoding -----

  /** Unpadded base64url, as JWS section 2 of RFC 7515 has it. */
  function Encode(bs: seq<Byte>): string {
    if |bs| == 0 then ""
    else if |bs| == 1 then [Letter(bs[0] / 4), Letter(bs[0] % 4 * 16)]
    else if |bs| == 2 then [Letter(bs[0] / 4), Letter(bs[0] % 4 * 16 + bs[1] / 16), Letter(bs[1] % 16 * 4)]
    else [Letter(bs[0] / 4), Letter(bs[0] % 4 * 16 + bs[1] / 16),
          Letter(bs[1] % 16 * 4 + bs[2] / 64), Letter(bs[2] % 64)] + Encode(bs[3..])
  }

  /** `"=" * (-len(segment) % 4)` */
  function Padding(segment: string): string { seq((4 - |segment| % 4) % 4, _ => '=') }

  /** The padded form of section 5 of RFC 4648: quanta of four characters, the
      last one filled up with `=`. */
  function EncodePadded(bs: seq<Byte>): string {
    if |bs| == 0 then ""
    else if |bs| == 1 then Encode(bs) + "=="
    else if |bs| == 2 then Encode(bs) + "="
    else Encode(bs[..3]) + EncodePadded(bs[3..])
  }

  // ----- Decoding -----

  /** Where a decoder stands in a quantum: how many characters it has seen, the
      bits left over from the last one, and how many `=` in a row. */
  datatype Cursor = Cursor(seen: nat, left: nat, pads: nat)

  predicate CursorOk(q: Cursor) {
    q.seen < 4 && (q.seen == 1 ==> q.left < 64) && (q.seen == 2 ==> q.left < 16) && (q.seen == 3 ==> q.left < 4)
  }

  /** The bytes and the cursor after a character of value `v`. */
  function Read(q: Cursor, v: Sextet): (seq<Byte>, Cursor)
    requires CursorOk(q)
    ensures CursorOk(Read(q, v).1)
  {
    if q.seen == 0 then ([], Cursor(1, v, 0))
    else if q.seen == 1 then ([q.left * 4 + v / 16], Cursor(2, v % 16, 0))
    else if q.seen == 2 then ([q.left * 16 + v / 4], Cursor(3, v % 4, 0))
    else ([q.left * 64 + v], Cursor(0, 0, 0))
  }

  /** Python's non-strict decoding: characters outside the alphabet are
      skipped, a completed padding ends the input, an unfinished quantum is an
      error (None). */
  function DecodeFrom(s: string, q: Cursor): Option<seq<Byte>>
    requires CursorOk(q)
    decreases |s|
  {
    if s == "" then if q.seen == 0 then Some([]) else None
    else if s[0] == '=' then
      if q.seen >= 2 && q.seen + q.pads + 1 >= 4 then Some([])
      else DecodeFrom(s[1..], q.(pads := q.pads + 1))
    else if ValueOf(s[0]).None? then DecodeFrom(s[1..], q)
    else
      var (out, q') := Read(q, ValueOf(s[0]).value);
      var rest := DecodeFrom(s[1..], q');
      if rest.None? then None else Some(out + rest.value)
  }

  function Decode(s: string): Option<seq<Byte>> { DecodeFrom(s, Cursor(0, 0, 0)) }

  /** The text before the first dot and the text after it, if there is one. */
  function Split(s: string): (r: seq<string>)
    ensures r != []
  {
    if s == "" then [""]
    else
      var rest := Split(s[1..]);
      if s[0] == '.' then [""] + rest else [[s[0]] + rest[0]] + rest[1..]
  }

  // ----- The subject of an ID token -----

  /** What `json.loads` can answer about the payload: not JSON, not an object,
      or an object whose `sub` is a string or anything else. */
  datatype Json = Invalid | NotAnObject | Object(sub: Option<string>)

  /** `NotAscii` is the ValueError of the decoder that the program does not catch. */
  datatype TokenError = MalformedToken | NoSubject | NotAscii

  predicate Ascii(s: string) { forall i :: 0 <= i < |s| ==> s[i] as int < 128 }

  function ExtractSubject(idToken: string, loads: seq<Byte> -> Json): Result<string, TokenError> {
    var segments := Split(idToken);
    if |segments| != 3 then Err(MalformedToken)
    else if !Ascii(segments[1]) then Err(NotAscii)
    else
      var bytes := Decode(segments[1] + Padding(segments[1]));
      if bytes.None? then Err(MalformedToken)
      else
        match loads(bytes.value)
        case Invalid => Err(MalformedToken)
        case NotAnObject => Err(NoSubject)
        case Object(sub) => if sub.None? || sub.value == "" then Err(NoSubject) else Ok(sub.value)
  }

  /** The cross-check against the userinfo answer; false where the program raises. */
  function SubjectsAgree(idToken: Option<string>, userinfoSubject: string, loads: seq<Byte> -> Json): bool {
    idToken.None? || ExtractSubject(idToken.value, loads) == Ok(userinfoSubject)
  }

  // ----- Laws -----

  lemma PlusFour(n: nat)
    ensures (n + 4) % 4 == n % 4
  {
  }

  lemma {:induction false} EncodedLength(bs: seq<Byte>)
    ensures |Encode(bs)| % 4 != 1
  {
    if |bs| >= 3 {
      EncodedLength(bs[3..]);
      PlusFour(|Encode(bs[3..])|);
    }
  }

  lemma PaddingOfLonger(quantum: string, s: string)
    requires |quantum| == 4
    ensures Padding(quantum + s) == Padding(s)
  {
    PlusFour(|s|);
  }

  lemma EncodeFirstQuantum(bs: seq<Byte>)
    requires |bs| >= 3
    ensures Encode(bs) == Encode(bs[..3]) + Encode(bs[3..]) && |Encode(bs[..3])| == 4
  {
    assert bs[..3][3..] == [];
  }

  /** Padding the unpadded form gives exactly the padded form. */
  lemma {:induction false} PaddingCompletes(bs: seq<Byte>)
    ensures Encode(bs) + Padding(Encode(bs)) == EncodePadded(bs)
  {
    if |bs| >= 3 {
      PaddingCompletes(bs[3..]);
      EncodeFirstQuantum(bs);
      PaddingOfLonger(Encode(bs[..3]), Encode(bs[3..]));
      assert Encode(bs[..3]) + Encode(bs[3..]) + Padding(Encode(bs[3..]))
          == Encode(bs[..3]) + (Encode(bs[3..]) + Padding(Encode(bs[3..])));
    } else if |bs| == 1 {
      assert Padding(Encode(bs)) == "==";
    } else if |bs| == 2 {
      assert Padding(Encode(bs)) == "=";
    } else {
      assert Padding("") == "";
    }
  }

  /** Three pads are added exactly for the lengths no encoder produces. */
  lemma ThreePadsMeanNoEncoding(segment: string)
    ensures |Padding(segment)| == 3 <==> |segment| % 4 == 1
    ensures |Padding(segment)| == 3 ==> forall bs :: Encode(bs) != segment
  {
    forall bs ensures |Encode(bs)| % 4 != 1 { EncodedLength(bs); }
  }

  lemma ReadLetter(v: Sextet, rest: string, q: Cursor, bs: seq<Byte>)
    requires CursorOk(q) && DecodeFrom(rest, Read(q, v).1) == Some(bs)
    ensures DecodeFrom([Letter(v)] + rest, q) == Some(Read(q, v).0 + bs)
  {
    LetterRead(v);
    assert ([Letter(v)] + rest)[1..] == rest;
  }

  lemma ReadFirst(v0: Sextet, v1: Sextet, a: Byte, rest: string, bs: seq<Byte>)
    requires a == v0 * 4 + v1 / 16 && DecodeFrom(rest, Cursor(2, v1 % 16, 0)) == Some(bs)
    ensures Decode([Letter(v0), Letter(v1)] + rest) == Some([a] + bs)
  {
    ReadLetter(v1, rest, Cursor(1, v0, 0), bs);
    ReadLetter(v0, [Letter(v1)] + rest, Cursor(0, 0, 0), [a] + bs);
    assert [Letter(v0)] + ([Letter(v1)] + rest) == [Letter(v0), Letter(v1)] + rest;
    assert [] + ([a] + bs) == [a] + bs;
  }

  lemma ReadSecond(left: nat, v2: Sextet, b: Byte, rest: string, bs: seq<Byte>)
    requires left < 16 && b == left * 16 + v2 / 4 && DecodeFrom(rest, Cursor(3, v2 % 4, 0)) == Some(bs)
    ensures DecodeFrom([Letter(v2)] + rest, Cursor(2, left, 0)) == Some([b] + bs)
  {
    ReadLetter(v2, rest, Cursor(2, left, 0), bs);
  }

  lemma ReadQuantum(v0: Sextet, v1: Sextet, v2: Sextet, v3: Sextet, a: Byte, b: Byte, c: Byte, rest: string, bs: seq<Byte>)
    requires a == v0 * 4 + v1 / 16 && b == v1 % 16 * 16 + v2 / 4 && c == v2 % 4 * 64 + v3
    requires Decode(rest) == Some(bs)
    ensures Decode([Letter(v0), Letter(v1), Letter(v2), Letter(v3)] + rest) == Some([a, b, c] + bs)
  {
    var s3 := [Letter(v3)] + rest;
    ReadLetter(v3, rest, Cursor(3, v2 % 4, 0), bs);
    ReadSecond(v1 % 16, v2, b, s3, [c] + bs);
    ReadFirst(v0, v1, a, [Letter(v2)] + s3, [b] + ([c] + bs));
    assert [Letter(v0), Letter(v1), Letter(v2), Letter(v3)] + rest == [Letter(v0), Letter(v1)] + ([Letter(v2)] + s3);
    assert [a] + ([b] + ([c] + bs)) == [a, b, c] + bs;
  }

  lemma DecodeQuantum(a: Byte, b: Byte, c: Byte, rest: string, bs: seq<Byte>)
    requires Decode(rest) == Some(bs)
    ensures Decode(Encode([a, b, c]) + rest) == Some([a, b, c] + bs)
  {
    assert [a, b, c][3..] == [];
    assert Encode([a, b, c]) == [Letter(a / 4), Letter(a % 4 * 16 + b / 16), Letter(b % 16 * 4 + c / 64), Letter(c % 64)];
    ReadQuantum(a / 4, a % 4 * 16 + b / 16, b % 16 * 4 + c / 64, c % 64, a, b, c, rest, bs);
  }

  lemma PadsEnd(q: Cursor)
    requires CursorOk(q) && q.seen >= 2 && q.pads == 0
    ensures DecodeFrom(if q.seen == 2 then "==" else "=", q) == Some([])
  {
    assert "=="[1..] == "=";
    assert DecodeFrom("=", q.(pads := 1)) == Some([]);
  }

  /** Decoding the padded form gives the bytes back. */
  lemma {:induction false} DecodeInvertsEncode(bs: seq<Byte>)
    ensures Decode(EncodePadded(bs)) == Some(bs)
  {
    if |bs| == 0 {
    } else if |bs| == 1 {
      DecodeOne(bs[0]);
      assert bs == [bs[0]];
    } else if |bs| == 2 {
      DecodeTwo(bs[0], bs[1]);
      assert bs == [bs[0], bs[1]];
    } else {
      DecodeInvertsEncode(bs[3..]);
      assert bs[..3] == [bs[0], bs[1], bs[2]];
      DecodeQuantum(bs[0], bs[1], bs[2], EncodePadded(bs[3..]), bs[3..]);
      assert bs == [bs[0], bs[1], bs[2]] + bs[3..];
    }
  }

  lemma DecodeOne(a: Byte)
    ensures Decode([Letter(a / 4), Letter(a % 4 * 16)] + "==") == Some([a])
  {
    PadsEnd(Cursor(2, 0, 0));
    ReadFirst(a / 4, a % 4 * 16, a, "==", []);
    assert [a] + [] == [a];
  }

  lemma DecodeTwo(a: Byte, b: Byte)
    ensures Decode([Letter(a / 4), Letter(a % 4 * 16 + b / 16), Letter(b % 16 * 4)] + "=") == Some([a, b])
  {
    var v0, v1, v2 := a / 4, a % 4 * 16 + b / 16, b % 16 * 4;
    PadsEnd(Cursor(3, 0, 0));
    ReadSecond(b / 16, v2, b, "=", []);
    assert [b] + [] == [b] && [a] + [b] == [a, b];
    ReadFirst(v0, v1, a, [Letter(v2)] + "=", [b]);
    assert [Letter(v0), Letter(v1), Letter(v2)] + "=" == [Letter(v0), Letter(v1)] + ([Letter(v2)] + "=");
  }

  // ----- What decoding any text means -----

  /** The values of the alphabet characters of a text; everything else is skipped. */
  function Data(s: string): seq<Sextet> {
    if s == "" then []
    else
      var v := ValueOf(s[|s| - 1]);
      Data(s[..|s| - 1]) + if v.Some? then [v.value] else []
  }

  /** How many `=` follow the last alphabet character. */
  function TrailingPads(s: string): nat {
    if s == "" || ValueOf(s[|s| - 1]).Some? then 0
    else TrailingPads(s[..|s| - 1]) + if s[|s| - 1] == '=' then 1 else 0
  }

  /** How many characters are left over behind whole quanta of four. */
  function Rest(d: seq<Sextet>): (n: nat)
    ensures n < 4 && n <= |d|
  {
    if |d| < 4 then |d| else Rest(d[4..])
  }

  /** At least two characters of a quantum, filled up with `=`. */
  predicate Complete(s: string) { Rest(Data(s)) >= 2 && Rest(Data(s)) + TrailingPads(s) >= 4 }

  /** The shortest completed prefix, or the whole text if none is. */
  function Effective(s: string): (e: string)
    ensures !Complete(e) ==> e == s
  {
    if s == "" then ""
    else
      var e := Effective(s[..|s| - 1]);
      if Complete(e) then e else s
  }

  function Letters(d: seq<Sextet>): string { seq(|d|, i requires 0 <= i < |d| => Letter(d[i])) }

  /** The bits of a last character that fill up no byte are dropped. */
  function Trim(d: seq<Sextet>): seq<Sextet> {
    if |d| >= 4 then d[..4] + Trim(d[4..])
    else if |d| == 3 then [d[0], d[1], d[2] / 4 * 4]
    else if |d| == 2 then [d[0], d[1] / 16 * 16]
    else d
  }

  function Byte0(v0: Sextet, v1: Sextet): Byte { v0 as int * 4 + v1 / 16 }

  function Byte1(v1: Sextet, v2: Sextet): Byte { v1 as int % 16 * 16 + v2 / 4 }

  function Byte2(v2: Sextet, v3: Sextet): Byte { v2 as int % 4 * 64 + v3 }

  /** The bytes of the data, three for each quantum of four characters. */
  function Bytes(d: seq<Sextet>): seq<Byte> {
    if |d| >= 4 then [Byte0(d[0], d[1]), Byte1(d[1], d[2]), Byte2(d[2], d[3])] + Bytes(d[4..])
    else if |d| == 3 then [Byte0(d[0], d[1]), Byte1(d[1], d[2])]
    else if |d| == 2 then [Byte0(d[0], d[1])]
    else []
  }

  /** Where the decoder stands behind the data. */
  function Cur(d: seq<Sextet>): (q: Cursor)
    ensures CursorOk(q) && q.seen == Rest(d) && q.pads == 0
  {
    var n := Rest(d);
    if n == 0 then Cursor(0, 0, 0)
    else
      var v := d[|d| - 1];
      Cursor(n, if n == 1 then v else if n == 2 then v % 16 else v % 4, 0)
  }

  function At(x: string): (q: Cursor)
    ensures CursorOk(q)
  {
    Cur(Data(x)).(pads := TrailingPads(x))
  }

  lemma OneMore(x: string, c: char)
    ensures var v := ValueOf(c);
      && Data(x + [c]) == Data(x) + (if v.Some? then [v.value] else [])
      && TrailingPads(x + [c]) == (if v.Some? then 0 else TrailingPads(x) + if c == '=' then 1 else 0)
      && Effective(x + [c]) == if Complete(Effective(x)) then Effective(x) else x + [c]
  {
    assert (x + [c])[..|x|] == x;
  }

  lemma {:induction false} CompleteStays(x: string, y: string)
    requires Complete(Effective(x))
    ensures Effective(x + y) == Effective(x)
  {
    if y == "" {
      assert x + y == x;
    } else {
      CompleteStays(x, y[..|y| - 1]);
      OneMore(x + y[..|y| - 1], y[|y| - 1]);
      assert x + y == x + y[..|y| - 1] + [y[|y| - 1]];
    }
  }

  lemma BytesOfOne(v: Sextet)
    ensures Bytes([v]) == [] && Bytes([]) == [] && Cur([v]) == Cursor(1, v, 0)
  {
  }

  lemma BytesOfTwo(v0: Sextet, v1: Sextet)
    ensures Bytes([v0, v1]) == [Byte0(v0, v1)] && Cur([v0, v1]) == Cursor(2, v1 % 16, 0)
  {
  }

  lemma BytesOfThree(v0: Sextet, v1: Sextet, v2: Sextet)
    ensures Bytes([v0, v1, v2]) == [Byte0(v0, v1), Byte1(v1, v2)] && Cur([v0, v1, v2]) == Cursor(3, v2 % 4, 0)
  {
  }

  lemma BytesOfFour(v0: Sextet, v1: Sextet, v2: Sextet, v3: Sextet)
    ensures Bytes([v0, v1, v2, v3]) == [Byte0(v0, v1), Byte1(v1, v2), Byte2(v2, v3)] && Cur([v0, v1, v2, v3]) == Cursor(0, 0, 0)
  {
    assert [v0, v1, v2, v3][4..] == [] && Bytes([]) == [];
  }

  /** One more character does to the data what it does to the decoder. */
  predicate Reads(d: seq<Sextet>, v: Sextet, e: seq<Sextet>) {
    Bytes(e) == Bytes(d) + Read(Cur(d), v).0 && Cur(e) == Read(Cur(d), v).1
  }

  lemma ReadsFirst(v: Sextet)
    ensures Reads([], v, [v])
  {
    BytesOfOne(v);
  }

  lemma ReadsSecond(v0: Sextet, v: Sextet)
    ensures Reads([v0], v, [v0, v])
  {
    BytesOfOne(v0);
    BytesOfTwo(v0, v);
  }

  lemma ReadsThird(v0: Sextet, v1: Sextet, v: Sextet)
    ensures Reads([v0, v1], v, [v0, v1, v])
  {
    BytesOfTwo(v0, v1);
    BytesOfThree(v0, v1, v);
  }

  lemma ReadsFourth(v0: Sextet, v1: Sextet, v2: Sextet, v: Sextet)
    ensures Reads([v0, v1, v2], v, [v0, v1, v2, v])
  {
    BytesOfThree(v0, v1, v2);
    BytesOfFour(v0, v1, v2, v);
  }

  lemma BytesOfFew(d: seq<Sextet>, v: Sextet)
    requires |d| < 4
    ensures Reads(d, v, d + [v])
  {
    if |d| == 0 {
      assert d == [] && d + [v] == [v];
      ReadsFirst(v);
    } else if |d| == 1 {
      assert d == [d[0]] && d + [v] == [d[0], v];
      ReadsSecond(d[0], v);
    } else if |d| == 2 {
      assert d == [d[0], d[1]] && d + [v] == [d[0], d[1], v];
      ReadsThird(d[0], d[1], v);
    } else {
      assert d == [d[0], d[1], d[2]] && d + [v] == [d[0], d[1], d[2], v];
      ReadsFourth(d[0], d[1], d[2], v);
    }
  }

  lemma BytesOfMany(q: seq<Sextet>, d: seq<Sextet>)
    requires |q| == 4
    ensures Bytes(q + d) == [Byte0(q[0], q[1]), Byte1(q[1], q[2]), Byte2(q[2], q[3])] + Bytes(d) && Cur(q + d) == Cur(d)
  {
    assert (q + d)[4..] == d;
  }

  lemma {:induction false} ReadOneMore(d: seq<Sextet>, v: Sextet)
    ensures Bytes(d + [v]) == Bytes(d) + Read(Cur(d), v).0 && Cur(d + [v]) == Read(Cur(d), v).1
  {
    if |d| < 4 {
      BytesOfFew(d, v);
    } else {
      ReadOneMore(d[4..], v);
      BytesOfMany(d[..4], d[4..]);
      BytesOfMany(d[..4], d[4..] + [v]);
      assert d == d[..4] + d[4..] && d + [v] == d[..4] + (d[4..] + [v]);
    }
  }

  predicate Decodes(e: string) { Complete(e) || Rest(Data(e)) == 0 }

  /** Having read `done`, the decoder makes `r` of the rest of a text that decodes to `total` if at all. */
  predicate Ends(ok: bool, total: seq<Byte>, done: seq<Byte>, r: Option<seq<Byte>>) {
    if ok then r.Some? && total == done + r.value else r.None?
  }

  lemma DecodeReads(c: char, y: string, q: Cursor)
    requires CursorOk(q) && ValueOf(c).Some?
    ensures var r := DecodeFrom(y, Read(q, ValueOf(c).value).1);
      DecodeFrom([c] + y, q) == if r.None? then None else Some(Read(q, ValueOf(c).value).0 + r.value)
  {
    assert ([c] + y)[0] == c && ([c] + y)[1..] == y && c != '=';
  }

  lemma EndsLater(ok: bool, total: seq<Byte>, done: seq<Byte>, out: seq<Byte>, r: Option<seq<Byte>>)
    requires Ends(ok, total, done + out, r)
    ensures Ends(ok, total, done, if r.None? then None else Some(out + r.value))
  {
    if r.Some? {
      assert done + out + r.value == done + (out + r.value);
    }
  }

  lemma EndsByReading(ok: bool, total: seq<Byte>, done: seq<Byte>, c: char, y: string, q: Cursor)
    requires CursorOk(q) && ValueOf(c).Some?
    requires var (out, q') := Read(q, ValueOf(c).value); Ends(ok, total, done + out, DecodeFrom(y, q'))
    ensures Ends(ok, total, done, DecodeFrom([c] + y, q))
  {
    var (out, q') := Read(q, ValueOf(c).value);
    DecodeReads(c, y, q);
    EndsLater(ok, total, done, out, DecodeFrom(y, q'));
  }

  lemma EndsBySkipping(ok: bool, total: seq<Byte>, done: seq<Byte>, c: char, y: string, q: Cursor)
    requires CursorOk(q) && ValueOf(c).None? && c != '='
    requires Ends(ok, total, done, DecodeFrom(y, q))
    ensures Ends(ok, total, done, DecodeFrom([c] + y, q))
  {
    assert ([c] + y)[0] == c && ([c] + y)[1..] == y;
  }

  lemma EndsByPadding(ok: bool, total: seq<Byte>, done: seq<Byte>, y: string, q: Cursor)
    requires CursorOk(q) && !(q.seen >= 2 && q.seen + q.pads + 1 >= 4)
    requires Ends(ok, total, done, DecodeFrom(y, q.(pads := q.pads + 1)))
    ensures Ends(ok, total, done, DecodeFrom(['='] + y, q))
  {
    assert (['='] + y)[0] == '=' && (['='] + y)[1..] == y;
  }

  lemma EndsByCompleting(done: seq<Byte>, y: string, q: Cursor)
    requires CursorOk(q) && q.seen >= 2 && q.seen + q.pads + 1 >= 4
    ensures Ends(true, done, done, DecodeFrom(['='] + y, q))
  {
    assert (['='] + y)[0] == '=' && done + [] == done;
  }

  lemma AtRead(x: string, c: char)
    requires ValueOf(c).Some?
    ensures At(x + [c]) == Read(At(x), ValueOf(c).value).1
    ensures Bytes(Data(x + [c])) == Bytes(Data(x)) + Read(At(x), ValueOf(c).value).0
  {
    OneMore(x, c);
    ReadOneMore(Data(x), ValueOf(c).value);
    ReadIgnoresPads(Cur(Data(x)), TrailingPads(x), ValueOf(c).value);
  }

  lemma ReadIgnoresPads(q: Cursor, pads: nat, v: Sextet)
    requires CursorOk(q)
    ensures Read(q.(pads := pads), v) == Read(q, v) && Read(q, v).1.pads == 0
  {
  }

  lemma AtSkip(x: string, c: char)
    requires ValueOf(c).None?
    ensures Data(x + [c]) == Data(x) && At(x + [c]) == if c == '=' then At(x).(pads := At(x).pads + 1) else At(x)
  {
    OneMore(x, c);
  }

  /** Which character completes a padding. */
  lemma CompletesNow(x: string, c: char)
    requires !Complete(Effective(x))
    ensures Complete(Effective(x + [c])) <==> c == '=' && At(x).seen >= 2 && At(x).seen + At(x).pads + 1 >= 4
    ensures Effective(x + [c]) == x + [c]
  {
    OneMore(x, c);
    assert ValueOf(c).None? ==> Data(x + [c]) == Data(x);
  }

  /** The decoder, having read `x`, finishes any text that goes on with `y`. */
  lemma {:induction false} AlwaysEnds(x: string, y: string, q: Cursor, done: seq<Byte>)
    requires !Complete(Effective(x)) && q == At(x) && done == Bytes(Data(x))
    ensures var e := Effective(x + y); Ends(Decodes(e), Bytes(Data(e)), done, DecodeFrom(y, q))
    decreases |y|
  {
    if y == "" {
      assert x + y == x && done + [] == done;
    } else {
      var c, rest := y[0], y[1..];
      assert [c] + rest == y && x + y == x + [c] + rest;
      var e := Effective(x + y);
      CompletesNow(x, c);
      if Complete(Effective(x + [c])) {
        CompleteStays(x + [c], rest);
        AtSkip(x, c);
        EndsByCompleting(done, rest, q);
      } else {
        AlwaysEnds(x + [c], rest, At(x + [c]), Bytes(Data(x + [c])));
        if ValueOf(c).Some? {
          AtRead(x, c);
          EndsByReading(Decodes(e), Bytes(Data(e)), done, c, rest, q);
        } else if c == '=' {
          AtSkip(x, c);
          EndsByPadding(Decodes(e), Bytes(Data(e)), done, rest, q);
        } else {
          AtSkip(x, c);
          EndsBySkipping(Decodes(e), Bytes(Data(e)), done, c, rest, q);
        }
      }
    }
  }

  /** How the bits of four characters and three bytes correspond. */
  lemma Bits(v0: Sextet, v1: Sextet, v2: Sextet, v3: Sextet)
    ensures var b0, b1, b2 := Byte0(v0, v1), Byte1(v1, v2), Byte2(v2, v3);
      && b0 / 4 == v0 && b0 % 4 == v1 / 16 && b1 / 16 == v1 % 16 && b1 % 16 == v2 / 4 && b2 / 64 == v2 % 4 && b2 % 64 == v3
  {
  }

  lemma EncodeTwo(b0: Byte, w0: Sextet, w1: Sextet)
    requires w0 == b0 / 4 && w1 == b0 % 4 * 16
    ensures Encode([b0]) == Letters([w0, w1])
  {
  }

  lemma EncodeThree(b0: Byte, b1: Byte, w0: Sextet, w1: Sextet, w2: Sextet)
    requires w0 == b0 / 4 && w1 == b0 % 4 * 16 + b1 / 16 && w2 == b1 % 16 * 4
    ensures Encode([b0, b1]) == Letters([w0, w1, w2])
  {
  }

  lemma EncodeQuantum(b0: Byte, b1: Byte, b2: Byte, rest: seq<Byte>, d: seq<Sextet>)
    requires |d| == 4 && d[0] == b0 / 4 && d[1] == b0 % 4 * 16 + b1 / 16 && d[2] == b1 % 16 * 4 + b2 / 64 && d[3] == b2 % 64
    ensures Encode([b0, b1, b2] + rest) == Letters(d) + Encode(rest)
  {
    var bs := [b0, b1, b2] + rest;
    assert bs[3..] == rest;
  }

  lemma LettersAppend(d: seq<Sextet>, e: seq<Sextet>)
    ensures Letters(d + e) == Letters(d) + Letters(e)
  {
  }

  lemma EncodeFew(d: seq<Sextet>)
    requires |d| < 4 && |d| != 1
    ensures Encode(Bytes(d)) == Letters(Trim(d))
  {
    if |d| == 2 {
      Bits(d[0], d[1], 0, 0);
      EncodeTwo(Byte0(d[0], d[1]), d[0], d[1] / 16 * 16);
    } else if |d| == 3 {
      Bits(d[0], d[1], d[2], 0);
      EncodeThree(Byte0(d[0], d[1]), Byte1(d[1], d[2]), d[0], d[1], d[2] / 4 * 4);
    }
  }

  /** The bytes read are the ones whose encoding is the data, but for dropped bits. */
  lemma {:induction false} BytesEncode(d: seq<Sextet>)
    requires Rest(d) != 1
    ensures Encode(Bytes(d)) == Letters(Trim(d))
  {
    if |d| < 4 {
      EncodeFew(d);
    } else {
      BytesEncode(d[4..]);
      Bits(d[0], d[1], d[2], d[3]);
      EncodeQuantum(Byte0(d[0], d[1]), Byte1(d[1], d[2]), Byte2(d[2], d[3]), Bytes(d[4..]), d[..4]);
      LettersAppend(d[..4], Trim(d[4..]));
    }
  }

  lemma EndsFromNothing(ok: bool, total: seq<Byte>, r: Option<seq<Byte>>)
    requires Ends(ok, total, [], r)
    ensures r == if ok then Some(total) else None
  {
    if ok {
      assert [] + r.value == r.value;
    }
  }

  lemma DecodeEnds(s: string)
    ensures var e := Effective(s); Decode(s) == if Decodes(e) then Some(Bytes(Data(e))) else None
  {
    assert At("") == Cursor(0, 0, 0) && Effective("") == "";
    AlwaysEnds("", s, Cursor(0, 0, 0), []);
    assert "" + s == s;
    EndsFromNothing(Decodes(Effective(s)), Bytes(Data(Effective(s))), Decode(s));
  }

  /** Decoding any text skips what is not in the alphabet, stops at the first
      completed padding, and succeeds exactly when there is one or the data are
      whole quanta; the bytes are those whose encoding is the data read, but for
      the bits that fill up no byte. */
  lemma DecodeExactly(s: string)
    ensures var e := Effective(s);
      && (Decode(s).Some? <==> Complete(e) || Rest(Data(e)) == 0)
      && (Decode(s).Some? ==> Encode(Decode(s).value) == Letters(Trim(Data(e))))
  {
    DecodeEnds(s);
    if Decode(s).Some? {
      BytesEncode(Data(Effective(s)));
    }
  }

  // ----- The whole token -----

  predicate DotFree(s: string) { forall i :: 0 <= i < |s| ==> s[i] != '.' }

  lemma {:induction false} SplitAt(head: string, tail: string)
    requires DotFree(head)
    ensures Split(head) == [head]
    ensures Split(head + "." + tail) == [head] + Split(tail)
  {
    if head == "" {
      assert ("" + "." + tail)[1..] == tail;
    } else {
      SplitAt(head[1..], tail);
      assert (head + "." + tail)[1..] == head[1..] + "." + tail;
      assert [head[0]] + head[1..] == head;
    }
  }

  ghost predicate Compact(idToken: string, header: string, body: string, signature: string) {
    idToken == header + "." + body + "." + signature && DotFree(header) && DotFree(body) && DotFree(signature)
  }

  lemma SplitCompact(idToken: string, header: string, body: string, signature: string)
    requires Compact(idToken, header, body, signature)
    ensures Split(idToken) == [header, body, signature]
  {
    assert idToken == header + "." + (body + "." + signature);
    SplitAt(header, body + "." + signature);
    SplitAt(body, signature);
    SplitAt(signature, "");
  }

  lemma {:induction false} SplitParts(s: string)
    ensures var r := Split(s);
      && DotFree(r[0]) && (|r| == 1 ==> s == r[0])
      && (|r| > 1 ==> |r[0]| < |s| && s[|r[0]|] == '.' && s[..|r[0]|] == r[0] && Split(s[|r[0]| + 1..]) == r[1..])
  {
    if s != "" {
      SplitParts(s[1..]);
      if s[0] == '.' {
        assert s[..0] == "" && ([""] + Split(s[1..]))[1..] == Split(s[1..]);
      } else {
        var rest := Split(s[1..]);
        assert Split(s)[0] == [s[0]] + rest[0] && Split(s)[1..] == rest[1..];
        assert s == [s[0]] + s[1..];
        if |rest| > 1 {
          assert s[1..][|rest[0]| + 1..] == s[|rest[0]| + 2..];
        }
      }
    }
  }

  lemma FirstPart(s: string) returns (rest: string)
    requires |Split(s)| > 1
    ensures DotFree(Split(s)[0]) && s == Split(s)[0] + ("." + rest) && Split(rest) == Split(s)[1..]
  {
    SplitParts(s);
    var n := |Split(s)[0]|;
    rest := s[n + 1..];
    assert s == s[..n] + ([s[n]] + s[n + 1..]);
  }

  lemma Regrouped(a: string, b: string, c: string)
    ensures a + ("." + (b + ("." + c))) == a + "." + b + "." + c
  {
    assert a + ("." + (b + ("." + c))) == a + "." + (b + ("." + c));
  }

  lemma ThreePartsAreCompact(s: string)
    requires |Split(s)| == 3
    ensures Compact(s, Split(s)[0], Split(s)[1], Split(s)[2])
  {
    var s1 := FirstPart(s);
    var s2 := FirstPart(s1);
    SplitParts(s2);
    var a, b, c := Split(s)[0], Split(s)[1], Split(s)[2];
    Regrouped(a, b, c);
  }

  /** A subject is found exactly in tokens of three dot-free parts whose middle
      one is ASCII and decodes to an object with that non-empty `sub`. */
  lemma SubjectFoundExactly(idToken: string, subject: string, loads: seq<Byte> -> Json)
    ensures ExtractSubject(idToken, loads) == Ok(subject) <==>
      exists header, body, signature ::
        && Compact(idToken, header, body, signature) && Ascii(body)
        && Decode(body + Padding(body)).Some?
        && loads(Decode(body + Padding(body)).value) == Object(Some(subject)) && subject != ""
  {
    if |Split(idToken)| == 3 {
      ThreePartsAreCompact(idToken);
    }
    forall header, body, signature | Compact(idToken, header, body, signature)
      ensures Split(idToken) == [header, body, signature]
    {
      SplitCompact(idToken, header, body, signature);
    }
  }

  predicate Readable(body: string, loads: seq<Byte> -> Json) {
    var bytes := Decode(body + Padding(body));
    bytes.Some? && !loads(bytes.value).Invalid?
  }

  /** Why no subject is found: `NotAscii`, which nobody catches, only for a
      non-ASCII middle part; malformed for a wrong number of parts, a middle
      part that does not decode, or one that is not JSON. */
  lemma ExtractionFailsExactly(idToken: string, loads: seq<Byte> -> Json)
    ensures var segments, r := Split(idToken), ExtractSubject(idToken, loads);
      && (r == Err(NotAscii) <==> |segments| == 3 && !Ascii(segments[1]))
      && (r == Err(MalformedToken) <==> |segments| != 3 || (Ascii(segments[1]) && !Readable(segments[1], loads)))
  {
  }

  lemma {:induction false} EncodeIsPlain(bs: seq<Byte>)
    ensures DotFree(Encode(bs)) && Ascii(Encode(bs))
  {
    forall v: Sextet ensures Letter(v) != '.' { LetterRead(v); }
    if |bs| >= 3 {
      EncodeIsPlain(bs[3..]);
    }
  }

  /** From a compact token of section 7.1 of RFC 7515, for any dot-free header and
      signature, the JSON reader is handed exactly the payload bytes. */
  lemma PayloadRecovered(header: string, payload: seq<Byte>, signature: string, loads: seq<Byte> -> Json)
    requires DotFree(header) && DotFree(signature)
    ensures ExtractSubject(header + "." + Encode(payload) + "." + signature, loads) ==
      match loads(payload)
      case Invalid => Err(MalformedToken)
      case NotAnObject => Err(NoSubject)
      case Object(sub) => if sub.None? || sub.value == "" then Err(NoSubject) else Ok(sub.value)
  {
    var body := Encode(payload);
    var token := header + "." + body + "." + signature;
    EncodeIsPlain(payload);
    SplitCompact(token, header, body, signature);
    PaddingCompletes(payload);
    DecodeInvertsEncode(payload);
  }

  /** For such a token the cross-check passes exactly when the payload is an
      object whose `sub` is the non-empty userinfo subject. */
  lemma SubjectsAgreeExactly(header: string, payload: seq<Byte>, signature: string, subject: string, loads: seq<Byte> -> Json)
    requires DotFree(header) && DotFree(signature)
    ensures SubjectsAgree(Some(header + "." + Encode(payload) + "." + signature), subject, loads)
      <==> subject != "" && loads(payload) == Object(Some(subject))
  {
    PayloadRecovered(header, payload, signature, loads);
  }
}
