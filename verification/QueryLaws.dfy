/** Query strings described from outside: what is cut off, where the text is split, and what
    becomes of each piece. */
module QueryLaws {
  import opened Common
  import opened PercentEncoding
  import PercentLaws
  import opened QueryString

  // ----- which part of the text is the query ------------------------------------------------

  /** The white space of ECMAScript, one by one. */
  lemma SpaceExactly(c: char)
    ensures Space(c) <==>
            || c in "\t\n\U{000b}\U{000c}\r \U{00a0}\U{1680}\U{2028}\U{2029}\U{202f}\U{205f}\U{3000}\U{feff}"
            || c in "\U{2000}\U{2001}\U{2002}\U{2003}\U{2004}\U{2005}\U{2006}\U{2007}\U{2008}\U{2009}\U{200a}"
  {
    var few, row := "\t\n\U{000b}\U{000c}\r", "\U{2000}\U{2001}\U{2002}\U{2003}\U{2004}\U{2005}\U{2006}\U{2007}\U{2008}\U{2009}\U{200a}";
    if '\t' <= c <= '\r' { assert few[c as int - 9] == c; }
    if '\U{2000}' <= c <= '\U{200a}' { assert row[c as int - 0x2000] == c; }
  }

  ghost predicate AllSpace(s: string) {
    forall c | c in s :: Space(c)
  }

  /** What is stripped is space, and no space is left at either end. */
  lemma {:induction false} StripExactly(s: string) returns (left: string, right: string)
    ensures s == left + Strip(s) + right && AllSpace(left) && AllSpace(right)
    ensures Strip(s) != [] ==> !Space(Strip(s)[0]) && !Space(Strip(s)[|Strip(s)| - 1])
    decreases |s|
  {
    hide Space;
    left, right := [], [];
    if s != [] && Space(s[0]) {
      left, right := StripExactly(s[1..]);
      left := [s[0]] + left;
    } else if s != [] && Space(s[|s| - 1]) {
      left, right := StripExactly(s[..|s| - 1]);
      right := right + [s[|s| - 1]];
    }
  }

  /** The pattern ([^?#]*)(#.*)?$ matches s from its start and captures q. */
  ghost predicate Fits(s: string, q: string) {
    && q <= s && '?' !in q && '#' !in q
    && (|q| == |s| || (s[|q|] == '#' && forall c | c in s[|q|..] :: c !in "\n\r\U{2028}\U{2029}"))
  }

  lemma {:induction false} RunIsLongest(s: string)
    ensures var r := Run(s); r <= s && '?' !in r && '#' !in r && (|r| < |s| ==> s[|r|] == '?' || s[|r|] == '#')
  {
    if s != [] { RunIsLongest(s[1..]); }
  }

  lemma FitsRun(s: string, q: string)
    requires Fits(s, q)
    ensures q == Run(s)
  {
    hide Run;
    RunIsLongest(s);
    var r := Run(s);
    assert forall i | 0 <= i < |r| && i < |q| :: r[i] == q[i];
  }

  lemma EndsExactly(rest: string)
    ensures (exists c :: c in rest && LineEnd(c)) <==> !(forall c | c in rest :: c !in "\n\r\U{2028}\U{2029}")
  {
  }

  /** The query part is what the leftmost match captures. */
  lemma {:induction false} QueryPartIsLeftmost(s: string) returns (i: nat)
    ensures i <= |s| && Fits(s[i..], QueryPart(s))
    ensures forall j, q | 0 <= j < i :: !Fits(s[j..], q)
    decreases |s|
  {
    RunIsLongest(s);
    var r := Run(s);
    var rest := s[|r|..];
    EndsExactly(rest);
    hide Run, LineEnd;
    if rest == [] || (rest[0] == '#' && !exists c :: c in rest && LineEnd(c)) {
      i := 0;
      assert s[0..] == s;
    } else {
      var k := QueryPartIsLeftmost(s[1..]);
      i := k + 1;
      assert s[1..][k..] == s[i..];
      forall j, q | 0 <= j < i ensures !Fits(s[j..], q) {
        if j == 0 {
          if Fits(s, q) { FitsRun(s, q); }
          assert s[0..] == s;
        } else {
          assert s[1..][j - 1..] == s[j..];
        }
      }
    }
  }

  // ----- splitting -----------------------------------------------------------------------------

  /** The separator does not occur in s + sep before position |s|. */
  ghost predicate FirstAt(s: string, sep: string, rest: string) {
    forall i | 0 <= i < |s| :: !(sep <= (s + (sep + rest))[i..])
  }

  /** The first piece ends where the separator first occurs. */
  lemma {:induction false} SplitFirst(s: string, sep: string, rest: string)
    requires sep != [] && FirstAt(s, sep, rest)
    ensures Split(s + (sep + rest), sep) == [s] + Split(rest, sep)
    decreases |s|
  {
    var all := s + (sep + rest);
    if s == [] {
      SplitAtSeparator(rest, sep);
      assert all == sep + rest;
    } else {
      assert all[0..] == all;
      assert all[1..] == s[1..] + (sep + rest);
      forall i | 0 <= i < |s[1..]| ensures !(sep <= (s[1..] + (sep + rest))[i..]) {
        assert all[1..][i..] == all[i + 1..];
      }
      SplitFirst(s[1..], sep, rest);
      var parts := Split(s[1..] + (sep + rest), sep);
      assert parts[0] == s[1..] && parts[1..] == Split(rest, sep);
      assert [s[0]] + s[1..] == s;
    }
  }

  /** Text without the separator is one piece. */
  lemma {:induction false} SplitNone(s: string, sep: string)
    requires sep != [] && forall i | 0 <= i < |s| :: !(sep <= s[i..])
    ensures Split(s, sep) == [s]
    decreases |s|
  {
    if s != [] {
      assert s[0..] == s;
      forall i | 0 <= i < |s[1..]| ensures !(sep <= s[1..][i..]) {
        assert s[1..][i..] == s[i + 1..];
      }
      SplitNone(s[1..], sep);
      assert [s[0]] + s[1..] == s;
    }
  }

  // ----- one piece -------------------------------------------------------------------------------

  lemma NotAPrefix(s: string, i: nat, x: char)
    requires i < |s| && s[i] != x
    ensures !([x] <= s[i..])
  {
  }

  lemma {:induction false} JoinParts(parts: seq<string>, v: string)
    requires parts == Split(v, "=")
    ensures Join(parts, "=") == v
  {
    JoinSplit(v, "=");
  }

  /** A piece is a key and a value around its first equality sign, both decoded; a piece without
      the sign has no value, and one without a key is left out. */
  lemma PieceExactly(hash: Hash, k: string, v: string, inherited: set<string>)
    requires '=' !in k
    ensures k == [] ==> ParsePiece(hash, k, inherited) == Some(hash)
    ensures k == [] ==> ParsePiece(hash, k + ("=" + v), inherited) == Some(hash)
    ensures k != [] && Decode(k) == None ==>
              && ParsePiece(hash, k, inherited) == None
              && ParsePiece(hash, k + ("=" + v), inherited) == None
    ensures k != [] && Decode(v) == None ==> ParsePiece(hash, k + ("=" + v), inherited) == None
    ensures k != [] && Decode(k) != None ==>
              ParsePiece(hash, k, inherited) == Some(Added(hash, Decode(k).value, Undefined, inherited))
    ensures k != [] && Decode(k) != None && Decode(v) != None ==>
              ParsePiece(hash, k + ("=" + v), inherited) ==
                Some(Added(hash, Decode(k).value, Text(Decode(v).value), inherited))
  {
    forall i | 0 <= i < |k| ensures !("=" <= k[i..]) && !("=" <= (k + ("=" + v))[i..]) {
      NotAPrefix(k, i, '=');
      NotAPrefix(k + ("=" + v), i, '=');
    }
    SplitNone(k, "=");
    SplitFirst(k, "=", v);
    JoinSplit(v, "=");
    hide Split, Join, Decode, Added;
    assert ([k] + Split(v, "="))[1..] == Split(v, "=");
  }

  /** What a key has afterwards: the value alone, after what it had, or after what it inherits. */
  lemma AddedExactly(hash: Hash, key: string, x: Item, inherited: set<string>)
    ensures var after := Added(hash, key, x, inherited);
      && after.Keys == hash.Keys + {key}
      && (forall k | k in hash && k != key :: after[k] == hash[k])
      && (key !in hash && key !in inherited ==> after[key] == One(x))
      && (key !in hash && key in inherited ==> after[key] == Many([Native(key), x]))
      && (forall y | key in hash && hash[key] == One(y) :: after[key] == Many([y, x]))
      && (forall ys | key in hash && hash[key] == Many(ys) :: after[key] == Many(ys + [x]))
  {
    forall y | key in hash && hash[key] == One(y) ensures Items(hash[key]) + [x] == [y, x] {
    }
  }

  // ----- the whole text ------------------------------------------------------------------------------

  /** Text that has nothing to strip and neither ? nor # is split at the ampersands. */
  lemma QueryOfPieces(parts: seq<string>, inherited: set<string>)
    requires parts != [] && forall p | p in parts :: '&' !in p && '?' !in p && '#' !in p
    requires var s := Join(parts, "&"); s != [] ==> !Space(s[0]) && !Space(s[|s| - 1])
    ensures QueryParams(Join(parts, "&"), [], inherited) == ParsePieces(parts, inherited)
  {
    hide Split, Join, Space, Strip, ParsePieces;
    var s := Join(parts, "&");
    JoinContains(parts, "&", '?');
    JoinContains(parts, "&", '#');
    StripIsAll(s);
    RunIsAll(s);
    SplitJoin(parts, "&");
  }

  /** Text that means itself in a query. */
  ghost predicate Literal(s: string) {
    '%' !in s && '&' !in s && '?' !in s && '#' !in s && forall c | c in s :: !Space(c)
  }

  /** One key and one value that mean themselves come back as written, whatever else is in them. */
  lemma PairComesBack(k: string, v: string, inherited: set<string>)
    requires Literal(k) && Literal(v) && k != [] && '=' !in k && k !in inherited
    ensures QueryParams(k + ("=" + v), [], inherited) == Some(map[k := One(Text(v))])
    ensures QueryParams(k, [], inherited) == Some(map[k := One(Undefined)])
  {
    PercentLaws.DecodeVerbatim(k, []);
    PercentLaws.DecodeVerbatim(v, []);
    PieceExactly(map[], k, v, inherited);
    LiteralEnds(k);
    LiteralEnds(v);
    OnePiece(k, inherited);
    OnePiece(k + ("=" + v), inherited);
  }

  /** The pieces are taken up from left to right, until one is malformed. */
  lemma PiecesInOrder(parts: seq<string>, p: string, inherited: set<string>)
    ensures ParsePieces([], inherited) == Some(map[])
    ensures ParsePieces(parts + [p], inherited) ==
            if ParsePieces(parts, inherited) == None then None
            else ParsePiece(ParsePieces(parts, inherited).value, p, inherited)
  {
    hide ParsePiece;
    assert (parts + [p])[..|parts|] == parts;
  }

  lemma LiteralEnds(s: string)
    requires Literal(s)
    ensures s != [] ==> !Space(s[0]) && !Space(s[|s| - 1])
  {
    hide Space;
    if s != [] { assert s[0] in s && s[|s| - 1] in s; }
  }

  lemma OnePiece(p: string, inherited: set<string>)
    requires '&' !in p && '?' !in p && '#' !in p && (p != [] ==> !Space(p[0]) && !Space(p[|p| - 1]))
    ensures QueryParams(p, [], inherited) == ParsePiece(map[], p, inherited)
  {
    hide Space, ParsePiece, QueryParams;
    QueryOfPieces([p], inherited);
    assert Join([p], "&") == p;
    assert [p][..0] == [];
    assert ParsePieces([p], inherited) == ParsePiece(map[], p, inherited);
  }

  // ----- what is printed ------------------------------------------------------------------------------

  /** Pairs are printed one after the other. */
  lemma {:induction false} PiecesAppend(xs: seq<Pair>, ys: seq<Pair>)
    ensures Pieces(xs + ys) == Pieces(xs) + Pieces(ys)
    decreases |ys|
  {
    hide PiecesOf;
    if ys == [] {
      assert xs + ys == xs;
    } else {
      PiecesAppend(xs, ys[..|ys| - 1]);
      assert (xs + ys)[..|xs + ys| - 1] == xs + ys[..|ys| - 1];
    }
  }

  lemma PiecesOfOne(pair: Pair)
    ensures Pieces([pair]) == PiecesOf(pair.key, Items(pair.value))
  {
    assert [pair][..0] == [];
  }

  /** What is printed for one key: undefined leaves the key alone, null leaves nothing after the
      sign, an array repeats the key, and another object prints nothing. */
  lemma PiecesExactly(k: string, t: string, xs: seq<Item>)
    ensures Pieces([Pair(k, One(Undefined))]) == [Encode(k)]
    ensures Pieces([Pair(k, One(Null))]) == [Encode(k) + "="]
    ensures Pieces([Pair(k, One(Text(t)))]) == [Encode(k) + "=" + Encode(t)]
    ensures Pieces([Pair(k, One(Scalar(t)))]) == [Encode(k) + "=" + Encode(t)]
    ensures Pieces([Pair(k, Object)]) == []
    ensures |Pieces([Pair(k, Many(xs))])| == |xs|
    ensures forall i | 0 <= i < |xs| :: [Pieces([Pair(k, Many(xs))])[i]] == Pieces([Pair(k, One(xs[i]))])
  {
    hide Encode, Pieces;
    PiecesOfOne(Pair(k, One(Undefined)));
    PiecesOfOne(Pair(k, One(Null)));
    PiecesOfOne(Pair(k, One(Text(t))));
    PiecesOfOne(Pair(k, One(Scalar(t))));
    PiecesOfOne(Pair(k, Object));
    PiecesOfOne(Pair(k, Many(xs)));
    NothingEncoded();
    assert Encode(k) + "=" + [] == Encode(k) + "=";
    forall i | 0 <= i < |xs| ensures [PiecesOf(k, xs)[i]] == Pieces([Pair(k, One(xs[i]))]) {
      PiecesOfOne(Pair(k, One(xs[i])));
    }
  }

  lemma NothingEncoded()
    ensures Encode([]) == []
  {
  }
}
