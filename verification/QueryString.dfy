/** Percent-encoding of text, as in section 2.1 of RFC 3986 over the UTF-8 bytes. */
module PercentEncoding {
  import opened Common

  /** The characters encodeURIComponent leaves alone. */
  predicate Plain(c: char) {
    'A' <= c <= 'Z' || 'a' <= c <= 'z' || '0' <= c <= '9'
    || c in {'-', '_', '.', '!', '~', '*', '\'', '(', ')'}
  }

  predicate IsByte(b: int) {
    0 <= b < 256
  }

  predicate IsScalar(v: int) {
    0 <= v < 0xD800 || 0xE000 <= v < 0x11_0000
  }

  function Utf8(c: char): (bytes: seq<int>)
    ensures forall b | b in bytes :: IsByte(b)
  {
    var v := c as int;
    if v < 0x80 then [v]
    else if v < 0x800 then [0xC0 + v / 64, 0x80 + v % 64]
    else if v < 0x1_0000 then [0xE0 + v / 4096, 0x80 + v / 64 % 64, 0x80 + v % 64]
    else [0xF0 + v / 262144, 0x80 + v / 4096 % 64, 0x80 + v / 64 % 64, 0x80 + v % 64]
  }

  /** The length of the UTF-8 sequence a byte begins, or 0. */
  function SequenceLength(b: int): nat {
    if b < 0x80 then 1
    else if b < 0xC0 then 0
    else if b < 0xE0 then 2
    else if b < 0xF0 then 3
    else if b < 0xF8 then 4
    else 0
  }

  /** The character of one UTF-8 sequence; overlong forms and surrogates are refused. */
  function FromUtf8(bytes: seq<int>): Option<char>
    requires 1 <= |bytes| <= 4 && |bytes| == SequenceLength(bytes[0])
  {
    if exists i :: 0 < i < |bytes| && !(0x80 <= bytes[i] < 0xC0) then None
    else
      var v :=
        if |bytes| == 1 then bytes[0]
        else if |bytes| == 2 then (bytes[0] - 0xC0) * 64 + bytes[1] - 0x80
        else if |bytes| == 3 then (bytes[0] - 0xE0) * 4096 + (bytes[1] - 0x80) * 64 + bytes[2] - 0x80
        else (bytes[0] - 0xF0) * 262144 + (bytes[1] - 0x80) * 4096 + (bytes[2] - 0x80) * 64 + bytes[3] - 0x80;
      var least := if |bytes| == 1 then 0 else if |bytes| == 2 then 0x80 else if |bytes| == 3 then 0x800 else 0x1_0000;
      if v < least || !IsScalar(v) then None else Some(v as char)
  }

  function HexDigit(d: int): char
    requires 0 <= d < 16
  {
    if d < 10 then ('0' as int + d) as char else ('A' as int + d - 10) as char
  }

  function HexValue(c: char): Option<int> {
    if '0' <= c <= '9' then Some(c as int - '0' as int)
    else if 'A' <= c <= 'F' then Some(c as int - 'A' as int + 10)
    else if 'a' <= c <= 'f' then Some(c as int - 'a' as int + 10)
    else None
  }

  function Escape(b: int): string
    requires IsByte(b)
  {
    ['%', HexDigit(b / 16), HexDigit(b % 16)]
  }

  function Escapes(bytes: seq<int>): string
    requires forall b | b in bytes :: IsByte(b)
  {
    if bytes == [] then [] else Escape(bytes[0]) + Escapes(bytes[1..])
  }

  function EncodeChar(c: char): string {
    if Plain(c) then [c] else Escapes(Utf8(c))
  }

  function Encode(s: string): string {
    if s == [] then [] else EncodeChar(s[0]) + Encode(s[1..])
  }

  /** The byte escaped at the front of s, if one is. */
  function Unescape(s: string): (r: Option<int>) {
    if |s| < 3 || s[0] != '%' || HexValue(s[1]).None? || HexValue(s[2]).None? then None
    else Some(HexValue(s[1]).value * 16 + HexValue(s[2]).value)
  }

  /** The n bytes escaped at the front of s. */
  function Unescapes(s: string, n: nat): (r: Option<seq<int>>)
    ensures r.Some? ==> |r.value| == n && 3 * n <= |s| && (n > 0 ==> Unescape(s) == Some(r.value[0]))
  {
    if n == 0 then Some([])
    else if Unescape(s).None? then None
    else
      var rest := Unescapes(s[3..], n - 1);
      if rest.None? then None else Some([Unescape(s).value] + rest.value)
  }

  /** decodeURIComponent; None is a URIError. */
  function Decode(s: string): Option<string>
    decreases |s|
  {
    if s == [] then Some([])
    else if s[0] != '%' then Prepend(s[0], Decode(s[1..]))
    else
      var b := Unescape(s);
      var n := if b.None? then 0 else SequenceLength(b.value);
      var bytes := Unescapes(s, n);
      if n == 0 || bytes.None? then None
      else
        var c := FromUtf8(bytes.value);
        if c.None? then None else Prepend(c.value, Decode(s[3 * n..]))
  }

  function Prepend(c: char, r: Option<string>): Option<string> {
    if r.None? then None else Some([c] + r.value)
  }

  lemma Utf8RoundTrip(c: char)
    ensures var bytes := Utf8(c);
      1 <= |bytes| <= 4 && |bytes| == SequenceLength(bytes[0]) && FromUtf8(bytes) == Some(c)
  {
    var v := c as int;
    assert IsScalar(v);
    SixBits(v);
    SixBits(v / 64);
    SixBits(v / 4096);
    Nested(v);
  }

  lemma SixBits(v: nat)
    ensures v == v / 64 * 64 + v % 64 && 0x80 <= 0x80 + v % 64 < 0xC0
  {
  }

  lemma Nested(v: nat)
    ensures v / 4096 == v / 64 / 64 && v / 262144 == v / 4096 / 64
  {
  }

  lemma HexDigits(d: int)
    requires 0 <= d < 16
    ensures HexValue(HexDigit(d)) == Some(d) && Plain(HexDigit(d))
  {
  }

  lemma EscapeRoundTrip(b: int, rest: string)
    requires IsByte(b)
    ensures Unescape(Escape(b) + rest) == Some(b)
    ensures (Escape(b) + rest)[3..] == rest
  {
  }

  lemma {:induction false} EscapesRoundTrip(bytes: seq<int>, rest: string)
    requires forall b | b in bytes :: IsByte(b)
    ensures Unescapes(Escapes(bytes) + rest, |bytes|) == Some(bytes)
    ensures |Escapes(bytes)| == 3 * |bytes| && (Escapes(bytes) + rest)[3 * |bytes|..] == rest
  {
    if bytes != [] {
      var s := Escapes(bytes[1..]) + rest;
      assert Escapes(bytes) + rest == Escape(bytes[0]) + s;
      EscapeRoundTrip(bytes[0], s);
      EscapesRoundTrip(bytes[1..], rest);
      assert bytes == [bytes[0]] + bytes[1..];
    }
  }

  /** Decoding undoes encoding, for all text. */
  lemma {:induction false} DecodeEncode(s: string)
    ensures Decode(Encode(s)) == Some(s)
  {
    if s != [] {
      var c, rest := s[0], Encode(s[1..]);
      DecodeEncode(s[1..]);
      if Plain(c) {
        assert (EncodeChar(c) + rest)[1..] == rest;
      } else {
        var bytes := Utf8(c);
        Utf8RoundTrip(c);
        EscapesRoundTrip(bytes, rest);
        assert Encode(s) == Escapes(bytes) + rest;
        assert Unescapes(Encode(s), |bytes|) == Some(bytes);
      }
      assert s == [c] + s[1..];
    }
  }

  predicate OnlyPlain(s: string) {
    forall c | c in s :: Plain(c) || c == '%'
  }

  lemma {:induction false} EscapesArePlain(bytes: seq<int>)
    requires forall b | b in bytes :: IsByte(b)
    ensures OnlyPlain(Escapes(bytes)) && (bytes != [] ==> Escapes(bytes) != [])
  {
    if bytes != [] {
      EscapesArePlain(bytes[1..]);
      assert IsByte(bytes[0]);
      HexDigits(bytes[0] / 16);
      HexDigits(bytes[0] % 16);
    }
  }

  /** Encoded text contains none of the characters that separate and end a query. */
  lemma {:induction false} EncodedIsPlain(s: string)
    ensures OnlyPlain(Encode(s)) && (Encode(s) == [] <==> s == [])
  {
    if s != [] {
      EncodedIsPlain(s[1..]);
      EscapesArePlain(Utf8(s[0]));
    }
  }
}

/** Hashes printed as query strings, and query strings parsed into hashes. */
module QueryString {
  import opened Common
  import opened PercentEncoding

  /** What an array of a hash, or the hash itself, holds: undefined, null, a string, another value
      with the text String.interpret gives it, or a property every object inherits. */
  datatype Item = Undefined | Null | Text(text: string) | Scalar(text: string) | Native(name: string)

  /** The value of a key: a single item, an array of items, or an object that is no array. */
  datatype Value = One(item: Item) | Many(items: seq<Item>) | Object

  datatype Pair = Pair(key: string, value: Value)

  type Hash = map<string, Value>

  function Interpret(x: Item): string
    requires !x.Undefined?
  {
    match x
    case Null => []
    case Text(t) => t
    case Scalar(t) => t
    case Native(n) => n
  }

  // ----- splitting and joining --------------------------------------------------------------

  /** The pieces between the occurrences of the separator, searched from the left. */
  function Split(s: string, sep: string): (parts: seq<string>)
    requires sep != []
    ensures parts != []
    decreases |s|
  {
    if s == [] then [[]]
    else if sep <= s then [[]] + Split(s[|sep|..], sep)
    else
      var rest := Split(s[1..], sep);
      [[s[0]] + rest[0]] + rest[1..]
  }

  function Join(parts: seq<string>, sep: string): string {
    if parts == [] then []
    else if |parts| == 1 then parts[0]
    else parts[0] + sep + Join(parts[1..], sep)
  }

  lemma JoinFirst(c: char, parts: seq<string>, sep: string)
    requires parts != []
    ensures Join([[c] + parts[0]] + parts[1..], sep) == [c] + Join(parts, sep)
  {
    var longer := [[c] + parts[0]] + parts[1..];
    assert longer[1..] == parts[1..];
    if |parts| > 1 {
      assert [c] + parts[0] + sep + Join(parts[1..], sep) == [c] + (parts[0] + sep + Join(parts[1..], sep));
    }
  }

  lemma JoinEmptyFirst(parts: seq<string>, sep: string)
    requires parts != []
    ensures Join([[]] + parts, sep) == sep + Join(parts, sep)
  {
    assert ([[]] + parts)[1..] == parts;
    assert [] + sep == sep;
  }

  /** Joining undoes splitting. */
  lemma {:induction false} JoinSplit(s: string, sep: string)
    requires sep != []
    ensures Join(Split(s, sep), sep) == s
    decreases |s|
  {
    if s != [] {
      hide Join;
      if sep <= s {
        JoinSplit(s[|sep|..], sep);
        JoinEmptyFirst(Split(s[|sep|..], sep), sep);
      } else {
        JoinSplit(s[1..], sep);
        JoinFirst(s[0], Split(s[1..], sep), sep);
      }
    } else {
      assert Split(s, sep) == [[]];
    }
  }

  lemma {:induction false} SplitPrefix(p: string, s: string, sep: string)
    requires sep != [] && sep[0] !in p
    ensures Split(p + s, sep) == [p + Split(s, sep)[0]] + Split(s, sep)[1..]
  {
    var parts := Split(s, sep);
    if p == [] {
      assert p + s == s && p + parts[0] == parts[0];
    } else {
      assert (p + s)[1..] == p[1..] + s;
      assert (p + s)[0] != sep[0];
      SplitPrefix(p[1..], s, sep);
      var rest := Split(p[1..] + s, sep);
      assert rest[0] == p[1..] + parts[0] && rest[1..] == parts[1..];
      assert [p[0]] + (p[1..] + parts[0]) == p + parts[0];
    }
  }

  lemma SplitAtSeparator(s: string, sep: string)
    requires sep != []
    ensures Split([], sep) == [[]] && Split(sep + s, sep) == [[]] + Split(s, sep)
  {
    assert (sep + s)[|sep|..] == s && sep <= sep + s;
  }

  /** Splitting undoes joining where no piece has the first character of the separator. */
  lemma {:induction false} SplitJoin(parts: seq<string>, sep: string)
    requires sep != [] && parts != [] && forall p | p in parts :: sep[0] !in p
    ensures Split(Join(parts, sep), sep) == parts
  {
    hide Split;
    var p, more := parts[0], parts[1..];
    if more == [] {
      SplitAtSeparator([], sep);
      SplitPrefix(p, [], sep);
      assert p + [] == p;
    } else {
      SplitJoin(more, sep);
      SplitAtSeparator(Join(more, sep), sep);
      SplitPrefix(p, sep + Join(more, sep), sep);
      assert p + (sep + Join(more, sep)) == Join(parts, sep);
      assert ([[]] + more)[1..] == more;
      assert p + [] == p && parts == [p] + more;
    }
  }

  lemma {:induction false} JoinContains(parts: seq<string>, sep: string, x: char)
    requires x !in sep && forall p | p in parts :: x !in p
    ensures x !in Join(parts, sep)
  {
    if |parts| > 1 { JoinContains(parts[1..], sep, x); }
  }

  // ----- printing ---------------------------------------------------------------------------

  function ToQueryPair(key: string, x: Item): string {
    if x.Undefined? then key else key + "=" + Encode(Interpret(x))
  }

  /** The items of a value that are printed: none for an object that is no array. */
  function Items(v: Value): seq<Item> {
    match v
    case One(x) => [x]
    case Many(xs) => xs
    case Object => []
  }

  function PiecesOf(key: string, xs: seq<Item>): seq<string> {
    seq(|xs|, i requires 0 <= i < |xs| => ToQueryPair(Encode(key), xs[i]))
  }

  function Pieces(pairs: seq<Pair>): seq<string>
    decreases |pairs|
  {
    if pairs == [] then []
    else
      var last := pairs[|pairs| - 1];
      Pieces(pairs[..|pairs| - 1]) + PiecesOf(last.key, Items(last.value))
  }

  /** Prints the pairs of a hash, in the order in which they are enumerated. */
  method ToQueryString(pairs: seq<Pair>) returns (s: string)
    ensures s == Join(Pieces(pairs), "&")
  {
    var results: seq<string> := [];
    var n := 0;
    while n < |pairs|
      invariant 0 <= n <= |pairs| && results == Pieces(pairs[..n])
    {
      var pair := pairs[n];
      var key := Encode(pair.key);
      if pair.value.Many? {
        var values := pair.value.items;
        var queryValues: seq<string> := [];
        var i := 0;
        while i < |values|
          invariant 0 <= i <= |values| && queryValues == PiecesOf(pair.key, values)[..i]
        {
          queryValues := queryValues + [ToQueryPair(key, values[i])];
          i := i + 1;
        }
        results := results + queryValues;
      } else if pair.value.One? {
        results := results + [ToQueryPair(key, pair.value.item)];
      }
      assert pairs[..n + 1][..n] == pairs[..n];
      n := n + 1;
    }
    assert pairs[..n] == pairs;
    s := Join(results, "&");
  }

  // ----- parsing ----------------------------------------------------------------------------

  predicate LineEnd(c: char) {
    c in {'\n', '\r', '\U{2028}', '\U{2029}'}
  }

  predicate Space(c: char) {
    '\t' <= c <= '\r' || '\U{2000}' <= c <= '\U{200a}'
    || c in {' ', '\U{00a0}', '\U{1680}', '\U{2028}', '\U{2029}', '\U{202f}', '\U{205f}', '\U{3000}', '\U{feff}'}
  }

  /** The text without the space around it. */
  function Strip(s: string): string {
    if s != [] && Space(s[0]) then Strip(s[1..])
    else if s != [] && Space(s[|s| - 1]) then Strip(s[..|s| - 1])
    else s
  }

  /** The longest beginning of s without ? and #. */
  function Run(s: string): (r: string)
    ensures r <= s
  {
    if s == [] || s[0] == '?' || s[0] == '#' then [] else [s[0]] + Run(s[1..])
  }

  /** What the leftmost match of ([^?#]*)(#.*)?$ captures. */
  function QueryPart(s: string): string {
    var r := Run(s);
    var rest := s[|r|..];
    if rest == [] || (rest[0] == '#' && !exists c :: c in rest && LineEnd(c)) then r
    else QueryPart(s[1..])
  }

  /** Adds a value to what a key has; a key that every object inherits looks taken. */
  function Added(hash: Hash, key: string, x: Item, inherited: set<string>): Hash {
    if key in hash then hash[key := Many(Items(hash[key]) + [x])]
    else if key in inherited then hash[key := Many([Native(key), x])]
    else hash[key := One(x)]
  }

  /** One piece between separators; None is a URIError. */
  function ParsePiece(hash: Hash, piece: string, inherited: set<string>): Option<Hash> {
    var pair := Split(piece, "=");
    if pair[0] == [] then Some(hash)
    else
      var key := Decode(pair[0]);
      var value := if |pair| == 1 then Some(Undefined) else AsText(Decode(Join(pair[1..], "=")));
      if key.None? || value.None? then None else Some(Added(hash, key.value, value.value, inherited))
  }

  function AsText(r: Option<string>): Option<Item> {
    if r.None? then None else Some(Text(r.value))
  }

  function ParsePieces(pieces: seq<string>, inherited: set<string>): Option<Hash>
    decreases |pieces|
  {
    if pieces == [] then Some(map[])
    else
      var before := ParsePieces(pieces[..|pieces| - 1], inherited);
      if before.None? then None else ParsePiece(before.value, pieces[|pieces| - 1], inherited)
  }

  /** No separator, or an empty one, stands for the ampersand. */
  function OrAmpersand(separator: string): (sep: string)
    ensures sep != [] && (separator == [] ==> sep == "&") && (separator != [] ==> sep == separator)
  {
    if separator == [] then "&" else separator
  }

  function QueryParams(s: string, separator: string, inherited: set<string>): Option<Hash> {
    ParsePieces(Split(QueryPart(Strip(s)), OrAmpersand(separator)), inherited)
  }

  method ToQueryParams(s: string, separator: string, inherited: set<string>) returns (r: Option<Hash>)
    ensures r == QueryParams(s, separator, inherited)
  {
    hide Split, QueryPart, Strip, Decode;
    var pieces := Split(QueryPart(Strip(s)), OrAmpersand(separator));
    var hash: Hash := map[];
    var n := 0;
    while n < |pieces|
      invariant 0 <= n <= |pieces| && ParsePieces(pieces[..n], inherited) == Some(hash)
    {
      assert pieces[..n + 1][..n] == pieces[..n];
      var pair := Split(pieces[n], "=");
      if pair[0] != [] {
        var key := Decode(pair[0]);
        if key.None? {
          ParseStops(pieces, n + 1, inherited);
          return None;
        }
        var value: Item := Undefined;
        if |pair| > 1 {
          var text := Decode(if |pair| > 2 then Join(pair[1..], "=") else pair[1]);
          if text.None? {
            ParseStops(pieces, n + 1, inherited);
            return None;
          }
          value := Text(text.value);
        }
        if key.value in hash || key.value in inherited {
          var present := if key.value in hash then hash[key.value] else One(Native(key.value));
          assert [Native(key.value)] + [value] == [Native(key.value), value];
          hash := hash[key.value := Many(Items(present) + [value])];
        } else {
          hash := hash[key.value := One(value)];
        }
      }
      n := n + 1;
    }
    assert pieces[..n] == pieces;
    r := Some(hash);
  }

  lemma {:induction false} ParseStops(pieces: seq<string>, n: nat, inherited: set<string>)
    requires n <= |pieces| && ParsePieces(pieces[..n], inherited) == None
    ensures ParsePieces(pieces, inherited) == None
    decreases |pieces|
  {
    if n < |pieces| {
      assert pieces[..|pieces| - 1][..n] == pieces[..n];
      ParseStops(pieces[..|pieces| - 1], n, inherited);
    } else {
      assert pieces[..n] == pieces;
    }
  }

  // ----- printing and parsing ---------------------------------------------------------------

  /** What becomes of an item: everything that has a text becomes a string. */
  function Printed(x: Item): Item {
    if x.Undefined? then Undefined else Text(Interpret(x))
  }

  function PrintedAll(xs: seq<Item>): (printed: seq<Item>)
    ensures |printed| == |xs|
  {
    seq(|xs|, i requires 0 <= i < |xs| => Printed(xs[i]))
  }

  /** What the parsed hash has for a key that was printed with these items. */
  function Collapsed(key: string, xs: seq<Item>, inherited: set<string>): Value
    requires xs != []
  {
    if key in inherited then Many([Native(key)] + xs)
    else if |xs| == 1 then One(xs[0])
    else Many(xs)
  }

  /** The hash that comes back: without the empty key and without values that print nothing. */
  function Reread(pairs: seq<Pair>, inherited: set<string>): Hash
    decreases |pairs|
  {
    if pairs == [] then map[]
    else
      var last := pairs[|pairs| - 1];
      var before := Reread(pairs[..|pairs| - 1], inherited);
      var xs := PrintedAll(Items(last.value));
      if last.key == [] || xs == [] then before else before[last.key := Collapsed(last.key, xs, inherited)]
  }

  predicate DistinctKeys(pairs: seq<Pair>) {
    forall i, j | 0 <= i < j < |pairs| :: pairs[i].key != pairs[j].key
  }

  /** A character that may occur in a printed pair. */
  predicate Clean(c: char) {
    Plain(c) || c == '%' || c == '='
  }

  lemma CleanIsInner(c: char)
    requires Clean(c)
    ensures c != '&' && c != '?' && c != '#' && !Space(c)
  {
  }

  lemma PlainIsClean(s: string)
    requires OnlyPlain(s)
    ensures forall c | c in s :: Clean(c) && c != '='
  {
  }

  lemma PieceIsClean(key: string, x: Item)
    ensures forall c | c in ToQueryPair(Encode(key), x) :: Clean(c)
  {
    hide Encode, OnlyPlain;
    EncodedIsPlain(key);
    PlainIsClean(Encode(key));
    if !x.Undefined? {
      EncodedIsPlain(Interpret(x));
      PlainIsClean(Encode(Interpret(x)));
    }
  }

  lemma PieceIsSplit(key: string, x: Item)
    ensures Split(ToQueryPair(Encode(key), x), "=") ==
              if x.Undefined? then [Encode(key)] else [Encode(key), Encode(Interpret(x))]
  {
    hide Encode, OnlyPlain, Clean, Split;
    var k := Encode(key);
    EncodedIsPlain(key);
    PlainIsClean(k);
    if x.Undefined? {
      SplitJoin([k], "=");
    } else {
      var v := Encode(Interpret(x));
      EncodedIsPlain(Interpret(x));
      PlainIsClean(v);
      SplitJoin([k, v], "=");
      assert [k, v][1..] == [v];
    }
  }

  lemma PieceIsParsed(hash: Hash, key: string, x: Item, inherited: set<string>)
    ensures ParsePiece(hash, ToQueryPair(Encode(key), x), inherited) ==
              Some(if key == [] then hash else Added(hash, key, Printed(x), inherited))
  {
    hide Encode, Decode, OnlyPlain, Split, Added;
    EncodedIsPlain(key);
    DecodeEncode(key);
    PieceIsSplit(key, x);
    if !x.Undefined? {
      var k, v := Encode(key), Encode(Interpret(x));
      DecodeEncode(Interpret(x));
      assert [k, v][1..] == [v] && Join([v], "=") == v;
    }
  }

  lemma PrintedGrows(xs: seq<Item>, n: nat)
    requires n < |xs|
    ensures PrintedAll(xs[..n + 1]) == PrintedAll(xs[..n]) + [Printed(xs[n])]
  {
  }

  /** Parsing the first n pieces of one key. */
  lemma {:induction false} KeyIsParsed(pieces: seq<string>, hash: Hash, key: string, xs: seq<Item>, n: nat,
                                       inherited: set<string>)
    requires n <= |xs| && key !in hash && ParsePieces(pieces, inherited) == Some(hash)
    ensures ParsePieces(pieces + PiecesOf(key, xs)[..n], inherited) ==
              Some(if key == [] || n == 0 then hash else hash[key := Collapsed(key, PrintedAll(xs[..n]), inherited)])
  {
    hide Added, Collapsed, ParsePiece, PrintedAll, Encode, ToQueryPair;
    var all := pieces + PiecesOf(key, xs)[..n];
    if n == 0 {
      assert all == pieces;
    } else {
      KeyIsParsed(pieces, hash, key, xs, n - 1, inherited);
      assert all[..|all| - 1] == pieces + PiecesOf(key, xs)[..n - 1];
      var before := ParsePieces(all[..|all| - 1], inherited).value;
      PieceIsParsed(before, key, xs[n - 1], inherited);
      PrintedGrows(xs, n - 1);
      CollapsedGrows(hash, before, key, PrintedAll(xs[..n - 1]), Printed(xs[n - 1]), inherited);
    }
  }

  lemma CollapsedGrows(hash: Hash, before: Hash, key: string, xs: seq<Item>, x: Item, inherited: set<string>)
    requires key !in hash
    requires key == [] || xs == [] ==> before == hash
    requires key != [] && xs != [] ==> before == hash[key := Collapsed(key, xs, inherited)]
    ensures key != [] ==> Added(before, key, x, inherited) == hash[key := Collapsed(key, xs + [x], inherited)]
  {
    if key != [] && xs != [] {
      assert Items(Collapsed(key, xs, inherited)) + [x] == if key in inherited then [Native(key)] + (xs + [x]) else xs + [x];
    } else {
      assert xs + [x] == [x] || xs != [];
      assert [Native(key)] + [x] == [Native(key), x];
    }
  }

  lemma {:induction false} RereadKeys(pairs: seq<Pair>, inherited: set<string>, key: string)
    ensures key in Reread(pairs, inherited) ==> exists i :: 0 <= i < |pairs| && pairs[i].key == key
    decreases |pairs|
  {
    if pairs != [] {
      var front := pairs[..|pairs| - 1];
      RereadKeys(front, inherited, key);
      if key in Reread(front, inherited) {
        var i :| 0 <= i < |front| && front[i].key == key;
        assert pairs[i].key == key;
      }
    }
  }

  lemma {:induction false} PiecesAreParsed(pairs: seq<Pair>, inherited: set<string>)
    requires DistinctKeys(pairs)
    ensures ParsePieces(Pieces(pairs), inherited) == Some(Reread(pairs, inherited))
    decreases |pairs|
  {
    if pairs != [] {
      var front, last := pairs[..|pairs| - 1], pairs[|pairs| - 1];
      PiecesAreParsed(front, inherited);
      var xs := Items(last.value);
      RereadKeys(front, inherited, last.key);
      KeyIsParsed(Pieces(front), Reread(front, inherited), last.key, xs, |xs|, inherited);
      assert PiecesOf(last.key, xs)[..|xs|] == PiecesOf(last.key, xs) && xs[..|xs|] == xs;
      assert PrintedAll(xs) == [] <==> xs == [];
    }
  }

  lemma {:induction false} PiecesAreClean(pairs: seq<Pair>)
    ensures forall p, c | p in Pieces(pairs) && c in p :: Clean(c)
    decreases |pairs|
  {
    if pairs != [] {
      var front, last := pairs[..|pairs| - 1], pairs[|pairs| - 1];
      PiecesAreClean(front);
      var own := PiecesOf(last.key, Items(last.value));
      forall p, c | p in own && c in p ensures Clean(c) {
        var i :| 0 <= i < |own| && own[i] == p;
        PieceIsClean(last.key, Items(last.value)[i]);
      }
    }
  }

  lemma {:induction false} RunIsAll(s: string)
    requires '?' !in s && '#' !in s
    ensures Run(s) == s
  {
    if s != [] { RunIsAll(s[1..]); }
  }

  /** Text between clean characters or the ends of a separator has nothing to strip. */
  lemma StripIsAll(s: string)
    requires s != [] ==> !Space(s[0]) && !Space(s[|s| - 1])
    ensures Strip(s) == s
  {
  }

  lemma {:induction false} RunOf(q: string, rest: string)
    requires '?' !in q && '#' !in q && (rest == [] || rest[0] == '?' || rest[0] == '#')
    ensures Run(q + rest) == q
  {
    if q == [] {
      assert q + rest == rest;
    } else {
      assert (q + rest)[1..] == q[1..] + rest;
      RunOf(q[1..], rest);
    }
  }

  lemma {:induction false} RunStopsAtMark(p: string, rest: string)
    requires '#' !in p && rest != [] && rest[0] == '?'
    ensures |Run(p + rest)| < |p + rest| && (p + rest)[|Run(p + rest)|] == '?'
  {
    if p == [] {
      assert p + rest == rest;
    } else if p[0] != '?' {
      assert (p + rest)[1..] == p[1..] + rest;
      RunStopsAtMark(p[1..], rest);
    }
  }

  /** In an address the query is what stands between the last ? and the fragment. */
  lemma {:induction false} QueryPartOfUrl(p: string, q: string, fragment: string)
    requires '#' !in p && '?' !in q && '#' !in q && forall c | c in fragment :: !LineEnd(c)
    ensures QueryPart(p + (['?'] + (q + (['#'] + fragment)))) == q
  {
    var tail := ['#'] + fragment;
    var rest := ['?'] + (q + tail);
    var s := p + rest;
    RunStopsAtMark(p, rest);
    if p == [] {
      assert s[1..] == q + tail;
      RunOf(q, tail);
      assert (q + tail)[|q|..] == tail;
    } else {
      assert s[1..] == p[1..] + rest;
      QueryPartOfUrl(p[1..], q, fragment);
    }
  }

  /** Separators that cannot be mistaken for a part of a printed pair, and are not cut off. */
  predicate Usable(sep: string) {
    sep != [] && !Clean(sep[0]) && '?' !in sep && '#' !in sep && !Space(sep[0]) && !Space(sep[|sep| - 1])
  }

  lemma {:induction false} JoinEnds(parts: seq<string>, sep: string)
    requires Usable(sep) && forall p, c | p in parts && c in p :: Clean(c)
    ensures var s := Join(parts, sep); s != [] ==> !Space(s[0]) && !Space(s[|s| - 1])
  {
    hide Space, Clean;
    if parts != [] {
      var p := parts[0];
      forall c | c in p ensures !Space(c) {
        CleanIsInner(c);
      }
      if |parts| > 1 { JoinEnds(parts[1..], sep); }
    }
  }

  /** Parsing pairs that were printed and joined, for every hash and every usable separator. */
  lemma ParseJoined(pairs: seq<Pair>, separator: string, inherited: set<string>)
    requires DistinctKeys(pairs) && Usable(OrAmpersand(separator))
    ensures QueryParams(Join(Pieces(pairs), OrAmpersand(separator)), separator, inherited) == Some(Reread(pairs, inherited))
  {
    hide Pieces, Space, Strip, Clean;
    var sep := OrAmpersand(separator);
    var pieces := Pieces(pairs);
    var s := Join(pieces, sep);
    PiecesAreClean(pairs);
    forall p, c | p in pieces && c in p ensures c != '?' && c != '#' {
      CleanIsInner(c);
    }
    JoinContains(pieces, sep, '?');
    JoinContains(pieces, sep, '#');
    JoinEnds(pieces, sep);
    StripIsAll(s);
    RunIsAll(s);
    PiecesAreParsed(pairs, inherited);
    if pieces == [] {
      var none: seq<string> := [[]];
      assert Split(s, sep) == none && none[..0] == [];
      assert ParsePieces(none, inherited) == Some(map[]);
    } else {
      SplitJoin(pieces, sep);
    }
  }

  /** Parsing what was printed, for every hash. */
  lemma ParsePrinted(pairs: seq<Pair>, inherited: set<string>)
    requires DistinctKeys(pairs)
    ensures QueryParams(Join(Pieces(pairs), "&"), [], inherited) == Some(Reread(pairs, inherited))
  {
    ParseJoined(pairs, [], inherited);
  }

  // ----- which hashes come back -----------------------------------------------------------------

  /** The hash that the pairs spell out. */
  function HashOf(pairs: seq<Pair>): Hash
    decreases |pairs|
  {
    if pairs == [] then map[]
    else HashOf(pairs[..|pairs| - 1])[pairs[|pairs| - 1].key := pairs[|pairs| - 1].value]
  }

  /** A string, undefined, or an array of two or more of these. */
  predicate Printable(v: Value) {
    match v
    case One(x) => x.Undefined? || x.Text?
    case Many(xs) => |xs| >= 2 && forall x | x in xs :: x.Undefined? || x.Text?
    case Object => false
  }

  predicate Survives(pair: Pair, inherited: set<string>) {
    pair.key != [] && pair.key !in inherited && Printable(pair.value)
  }

  lemma {:induction false} RereadAt(pairs: seq<Pair>, inherited: set<string>, i: nat)
    requires DistinctKeys(pairs) && i < |pairs|
    ensures var xs := PrintedAll(Items(pairs[i].value));
      var hash := Reread(pairs, inherited);
      if pairs[i].key == [] || xs == [] then pairs[i].key !in hash
      else pairs[i].key in hash && hash[pairs[i].key] == Collapsed(pairs[i].key, xs, inherited)
    decreases |pairs|
  {
    var front := pairs[..|pairs| - 1];
    if i < |front| {
      RereadAt(front, inherited, i);
    } else {
      RereadKeys(front, inherited, pairs[i].key);
    }
  }

  lemma {:induction false} HashAt(pairs: seq<Pair>)
    requires DistinctKeys(pairs)
    ensures forall i | 0 <= i < |pairs| :: pairs[i].key in HashOf(pairs) && HashOf(pairs)[pairs[i].key] == pairs[i].value
    ensures forall k | k in HashOf(pairs) :: exists i :: 0 <= i < |pairs| && pairs[i].key == k
    decreases |pairs|
  {
    if pairs != [] {
      var front := pairs[..|pairs| - 1];
      HashAt(front);
      forall k | k in HashOf(pairs) ensures exists i :: 0 <= i < |pairs| && pairs[i].key == k {
        if k in HashOf(front) {
          var i :| 0 <= i < |front| && front[i].key == k;
          assert pairs[i].key == k;
        } else {
          assert pairs[|pairs| - 1].key == k;
        }
      }
    }
  }

  /** What one key gives back is what it had exactly if the key and its value survive. */
  lemma SurvivesExactly(pair: Pair, inherited: set<string>)
    ensures var xs := PrintedAll(Items(pair.value));
      Survives(pair, inherited) <==>
        pair.key != [] && xs != [] && Collapsed(pair.key, xs, inherited) == pair.value
  {
  }

  /** Parsing what was printed gives the hash back exactly if every key is not empty and not
      inherited, and every value is a string, undefined, or an array of two or more of these. */
  lemma RoundTrip(pairs: seq<Pair>, inherited: set<string>)
    requires DistinctKeys(pairs)
    ensures QueryParams(Join(Pieces(pairs), "&"), [], inherited) == Some(HashOf(pairs)) <==>
            forall i | 0 <= i < |pairs| :: Survives(pairs[i], inherited)
  {
    hide Reread, HashOf, Survives, QueryParams, Pieces, Join, Collapsed, PrintedAll, Items;
    ParsePrinted(pairs, inherited);
    HashAt(pairs);
    var again, hash := Reread(pairs, inherited), HashOf(pairs);
    forall i | 0 <= i < |pairs|
      ensures Survives(pairs[i], inherited) <==> pairs[i].key in again && again[pairs[i].key] == hash[pairs[i].key]
    {
      RereadAt(pairs, inherited, i);
      SurvivesExactly(pairs[i], inherited);
    }
    forall k | k in again ensures k in hash {
      RereadKeys(pairs, inherited, k);
    }
    if forall i | 0 <= i < |pairs| :: Survives(pairs[i], inherited) {
      assert again == hash;
    }
  }
}
