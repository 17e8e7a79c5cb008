/** The PSS query string (src/pss.rs): percent-encoding and the `?var=` list. */
module PssQuery {
  import opened Common

  // ---------------------------------------------------------- percent-encoding

  /** The unreserved characters of section 2.3 of RFC 3986. */
  predicate Unreserved(c: char) {
    'A' <= c <= 'Z' || 'a' <= c <= 'z' || '0' <= c <= '9' || c == '-' || c == '_' || c == '.' || c == '~'
  }

  function HexDigit(n: nat): char
    requires n < 16
  {
    if n < 10 then '0' + n as char else 'A' + (n - 10) as char
  }

  function HexValue(c: char): Option<nat> {
    if '0' <= c <= '9' then Some((c - '0') as nat)
    else if 'A' <= c <= 'F' then Some((c - 'A') as nat + 10)
    else if 'a' <= c <= 'f' then Some((c - 'a') as nat + 10)
    else None
  }

  function EncodeByte(b: byte): string {
    if Unreserved(b as char) then [b as char] else ['%', HexDigit(b / 16), HexDigit(b % 16)]
  }

  function Encode(s: seq<byte>): string { if s == [] then "" else EncodeByte(s[0]) + Encode(s[1..]) }

  /** `urlencode` */
  method UrlEncode(s: seq<byte>) returns (out: string)
    ensures out == Encode(s)
  {
    out := "";
    var i := 0;
    while i < |s|
      invariant 0 <= i <= |s|
      invariant out == Encode(s[..i])
    {
      EncodeNext(s, i);
      var b := s[i];
      if Unreserved(b as char) {
        out := out + [b as char];
      } else {
        out := out + ['%', HexDigit(b / 16), HexDigit(b % 16)];
      }
      i := i + 1;
    }
    assert s[..i] == s;
  }

  lemma {:induction false} EncodeAppend(a: seq<byte>, b: seq<byte>)
    ensures Encode(a + b) == Encode(a) + Encode(b)
  {
    if a == [] {
      assert a + b == b;
    } else {
      assert (a + b)[1..] == a[1..] + b;
      EncodeAppend(a[1..], b);
    }
  }

  lemma EncodeNext(s: seq<byte>, i: nat)
    requires i < |s|
    ensures Encode(s[..i + 1]) == Encode(s[..i]) + EncodeByte(s[i])
  {
    EncodeAppend(s[..i], [s[i]]);
    assert s[..i + 1] == s[..i] + [s[i]];
    assert Encode([s[i]]) == EncodeByte(s[i]) + Encode([]);
  }

  /** Percent-decoding by section 2.1 of RFC 3986. */
  function Decode(t: string): Option<seq<byte>> {
    if t == "" then Some([])
    else if t[0] == '%' then
      if |t| < 3 then None
      else
        var hi, lo, rest := HexValue(t[1]), HexValue(t[2]), Decode(t[3..]);
        if hi == None || lo == None || rest == None then None
        else Some([(16 * hi.value + lo.value) as byte] + rest.value)
    else
      var rest := Decode(t[1..]);
      if rest == None || t[0] as int >= 256 then None else Some([t[0] as byte] + rest.value)
  }

  lemma HexRoundTrip(n: nat)
    requires n < 16
    ensures HexValue(HexDigit(n)) == Some(n)
    ensures Unreserved(HexDigit(n))
  {
  }

  /**
   A letter, a digit or one of `-_.~`, by their ASCII codes, stays as it is; any other byte becomes '%' and
   its two digits, in upper case.
   */
  lemma OneByte(b: byte)
    ensures 65 <= b <= 90 || 97 <= b <= 122 || 48 <= b <= 57 || b == 45 || b == 95 || b == 46 || b == 126 ==>
              Encode([b]) == [b as char]
    ensures !(65 <= b <= 90 || 97 <= b <= 122 || 48 <= b <= 57 || b == 45 || b == 95 || b == 46 || b == 126) ==>
              var (hi, lo) := (b / 16, b % 16);
              Encode([b]) == [ '%', (if hi < 10 then 48 + hi else 55 + hi) as char,
                               (if lo < 10 then 48 + lo else 55 + lo) as char ]
  {
    assert Encode([b]) == EncodeByte(b) + Encode([]) == EncodeByte(b);
  }

  /** Decoding is a left inverse of encoding on all byte strings. */
  lemma {:induction false} DecodeEncode(s: seq<byte>)
    ensures Decode(Encode(s)) == Some(s)
  {
    if s != [] {
      var b, t := s[0], Encode(s);
      DecodeEncode(s[1..]);
      if Unreserved(b as char) {
        assert t[1..] == Encode(s[1..]);
      } else {
        HexRoundTrip(b / 16);
        HexRoundTrip(b % 16);
        assert t[3..] == Encode(s[1..]);
      }
      assert [b] + s[1..] == s;
    }
  }

  /** Encoded text uses no reserved character: only unreserved ones and '%'. */
  lemma {:induction false} EncodedAlphabet(s: seq<byte>)
    ensures forall c :: c in Encode(s) ==> Unreserved(c) || c == '%'
  {
    if s != [] {
      EncodedAlphabet(s[1..]);
      if !Unreserved(s[0] as char) {
        HexRoundTrip(s[0] / 16);
        HexRoundTrip(s[0] % 16);
      }
    }
  }

  // ------------------------------------------------------------- variable list

  const VALUES_PATH := "/services/user/values.xml"
  const VAR := "var="

  function Join(parts: seq<string>, sep: string): string
    requires parts != []
  {
    if |parts| == 1 then parts[0] else parts[0] + sep + Join(parts[1..], sep)
  }

  function EncodeAll(vars: seq<seq<byte>>): (r: seq<string>)
    ensures |r| == |vars|
  {
    seq(|vars|, i requires 0 <= i < |vars| => Encode(vars[i]))
  }

  /** The path `query` requests. */
  function QueryPath(vars: seq<seq<byte>>): string
    requires vars != []
  {
    VALUES_PATH + "?var=" + Join(EncodeAll(vars), "?var=")
  }

  /** The path of one variable, and what one more adds. */
  lemma PathOfOne(v: seq<byte>)
    ensures QueryPath([v]) == "/services/user/values.xml?var=" + Encode(v)
  {
    assert EncodeAll([v]) == [Encode(v)];
  }

  lemma PathGrows(vars: seq<seq<byte>>, v: seq<byte>)
    requires vars != []
    ensures QueryPath(vars + [v]) == QueryPath(vars) + "?var=" + Encode(v)
  {
    assert EncodeAll(vars + [v]) == EncodeAll(vars) + [Encode(v)];
    JoinOneMore(EncodeAll(vars), Encode(v), "?var=");
    var head, list := VALUES_PATH + "?var=", Join(EncodeAll(vars), "?var=");
    AppendAssociates(head, list, "?var=");
    AppendAssociates(head, list + "?var=", Encode(v));
  }

  lemma {:induction false} JoinOneMore(parts: seq<string>, last: string, sep: string)
    requires parts != []
    ensures Join(parts + [last], sep) == Join(parts, sep) + sep + last
  {
    HeadOfAppend(parts, [last]);
    if |parts| > 1 {
      JoinOneMore(parts[1..], last, sep);
    }
  }

  /** The pieces of `s` between separators `c`. */
  function Split(s: string, c: char): (r: seq<string>)
    ensures r != []
  {
    if s == "" then [""]
    else
      var rest := Split(s[1..], c);
      if s[0] == c then [""] + rest else [[s[0]] + rest[0]] + rest[1..]
  }

  lemma {:induction false} SplitAtFirst(a: string, b: string, c: char)
    requires c !in a
    ensures Split(a + [c] + b, c) == [a] + Split(b, c)
  {
    var s := a + [c] + b;
    if a == "" {
      assert s[1..] == b;
    } else {
      assert s[1..] == a[1..] + [c] + b;
      SplitAtFirst(a[1..], b, c);
      assert s[0] == a[0] && a[0] in a;
      assert [a[0]] + a[1..] == a;
    }
  }

  lemma {:induction false} SplitNone(a: string, c: char)
    requires c !in a
    ensures Split(a, c) == [a]
  {
    if a != "" {
      SplitNone(a[1..], c);
      assert a[0] in a;
      assert [a[0]] + a[1..] == a;
    }
  }

  /** The variable named by one piece `var=<percent-encoded>`. */
  function ParseVar(piece: string): Option<seq<byte>> {
    if |piece| >= 4 && piece[..4] == VAR then Decode(piece[4..]) else None
  }

  function ParseVars(pieces: seq<string>): Option<seq<seq<byte>>> {
    if pieces == [] then Some([])
    else
      var first, rest := ParseVar(pieces[0]), ParseVars(pieces[1..]);
      if first == None || rest == None then None else Some([first.value] + rest.value)
  }

  /** How a PSS server, for which '?' separates parameters, reads the path. */
  function ParsePath(path: string): Option<seq<seq<byte>>> {
    var pieces := Split(path, '?');
    if pieces[0] == VALUES_PATH then ParseVars(pieces[1..]) else None
  }

  function Pieces(vars: seq<seq<byte>>): seq<string> {
    seq(|vars|, i requires 0 <= i < |vars| => VAR + Encode(vars[i]))
  }

  lemma JoinedPiece(first: string, rest: string)
    ensures VAR + (first + "?var=" + rest) == VAR + first + ['?'] + (VAR + rest)
  {
  }

  lemma {:induction false} SplitJoined(vars: seq<seq<byte>>)
    requires vars != []
    ensures Split(VAR + Join(EncodeAll(vars), "?var="), '?') == Pieces(vars)
  {
    var enc := EncodeAll(vars);
    EncodedAlphabet(vars[0]);
    var piece := VAR + enc[0];
    assert '?' !in piece;
    if |vars| == 1 {
      SplitNone(piece, '?');
      assert Pieces(vars) == [piece];
    } else {
      var rest := VAR + Join(enc[1..], "?var=");
      assert enc[1..] == EncodeAll(vars[1..]);
      JoinedPiece(enc[0], Join(enc[1..], "?var="));
      SplitAtFirst(piece, rest, '?');
      SplitJoined(vars[1..]);
      assert [piece] + Pieces(vars[1..]) == Pieces(vars);
    }
  }

  lemma {:induction false} ParsePieces(vars: seq<seq<byte>>)
    ensures ParseVars(Pieces(vars)) == Some(vars)
  {
    if vars != [] {
      DecodeEncode(vars[0]);
      assert Pieces(vars)[0][4..] == Encode(vars[0]);
      assert Pieces(vars)[1..] == Pieces(vars[1..]);
      ParsePieces(vars[1..]);
      assert [vars[0]] + vars[1..] == vars;
    }
  }

  /** The path splits back into exactly the variables asked for, whatever bytes their names hold. */
  lemma PathRoundTrip(vars: seq<seq<byte>>)
    requires vars != []
    ensures ParsePath(QueryPath(vars)) == Some(vars)
  {
    var rest := VAR + Join(EncodeAll(vars), "?var=");
    assert QueryPath(vars) == VALUES_PATH + ['?'] + rest;
    assert '?' !in VALUES_PATH;
    SplitAtFirst(VALUES_PATH, rest, '?');
    SplitJoined(vars);
    ParsePieces(vars);
  }
}
