/** The configuration pieces the indexer core uses, and `parse_addresses`
    (src/config.rs): split a comma-separated list, trim every piece, drop the
    empty ones and parse the rest, failing as a whole on the first piece that
    does not parse. The address parser `Address::from_str` is a library
    routine and is a parameter here. */
module Config {
  import opened Types

  /** The fields of `AppConfig` that the core reads. */
  datatype AppConfig = AppConfig(
    polToken: Address,
    polSymbol: string,
    polDecimals: Option<U8>,
    binanceAddrs: seq<Address>)

  /** The error `parse_addresses` reports: "invalid address: {s}". */
  datatype ConfigError = InvalidAddress(piece: string)

  /** Rust's `char::is_whitespace`: the Unicode White_Space property. */
  predicate IsWhitespace(c: char)
    ensures IsWhitespace(c) ==> c != ','
    ensures c < '\U{0080}' ==> (IsWhitespace(c) <==> c in " \t\n\U{000B}\U{000C}\r")
  {
    || '\t' <= c <= '\r'
    || c == ' '
    || c == '\U{0085}'
    || c == '\U{00A0}'
    || c == '\U{1680}'
    || '\U{2000}' <= c <= '\U{200A}'
    || c == '\U{2028}'
    || c == '\U{2029}'
    || c == '\U{202F}'
    || c == '\U{205F}'
    || c == '\U{3000}'
  }

  predicate AllWhitespace(s: string) {
    forall i :: 0 <= i < |s| ==> IsWhitespace(s[i])
  }

  /** `s` neither starts nor ends with whitespace. */
  predicate Trimmed(s: string) {
    s == [] || (!IsWhitespace(s[0]) && !IsWhitespace(s[|s| - 1]))
  }

  // ---------------------------------------------------------------------
  // str::split(',')

  /** The pieces between commas, in order; `""` gives `[""]` and a trailing
      comma gives a trailing empty piece, as Rust's `split` does. */
  function Split(s: string): (pieces: seq<string>)
    ensures |pieces| >= 1
    ensures forall i :: 0 <= i < |pieces| ==> ',' !in pieces[i]
  {
    if s == [] then [[]]
    else
      var rest := Split(s[1..]);
      if s[0] == ',' then [[]] + rest
      else [[s[0]] + rest[0]] + rest[1..]
  }

  /** The inverse of `Split`: the pieces glued back with commas. */
  function Join(pieces: seq<string>): string
    requires |pieces| >= 1
  {
    if |pieces| == 1 then pieces[0] else pieces[0] + "," + Join(pieces[1..])
  }

  lemma {:induction false} JoinSplit(s: string)
    ensures Join(Split(s)) == s
  {
    if s != [] {
      var rest := Split(s[1..]);
      JoinSplit(s[1..]);
      if s[0] == ',' {
        assert Split(s)[1..] == rest;
        assert s == [','] + s[1..];
      } else {
        var pieces := Split(s);
        if |rest| == 1 {
          assert pieces == [[s[0]] + rest[0]];
        } else {
          assert pieces[1..] == rest[1..];
          assert Join(rest) == rest[0] + "," + Join(rest[1..]);
        }
        assert s == [s[0]] + s[1..];
      }
    }
  }

  lemma {:induction false} SplitNoComma(p: string)
    requires ',' !in p
    ensures Split(p) == [p]
  {
    if p != [] {
      SplitNoComma(p[1..]);
      assert [p[0]] + p[1..] == p;
    }
  }

  lemma {:induction false} SplitAfterPiece(p: string, rest: string)
    requires ',' !in p
    ensures Split(p + "," + rest) == [p] + Split(rest)
  {
    if p == [] {
      assert p + "," + rest == [','] + rest;
    } else {
      var s := p + "," + rest;
      assert s[1..] == p[1..] + "," + rest;
      SplitAfterPiece(p[1..], rest);
      assert [p[0]] + p[1..] == p;
    }
  }

  lemma {:induction false} SplitJoin(pieces: seq<string>)
    requires |pieces| >= 1
    requires forall i :: 0 <= i < |pieces| ==> ',' !in pieces[i]
    ensures Split(Join(pieces)) == pieces
  {
    if |pieces| == 1 {
      SplitNoComma(pieces[0]);
    } else {
      SplitJoin(pieces[1..]);
      SplitAfterPiece(pieces[0], Join(pieces[1..]));
      assert [pieces[0]] + pieces[1..] == pieces;
    }
  }

  // ---------------------------------------------------------------------
  // str::trim

  /** The characters of `s` at positions `i .. j` are all whitespace. */
  predicate WhitespaceBetween(s: string, i: nat, j: nat)
    requires i <= j <= |s|
  {
    forall k :: i <= k < j ==> IsWhitespace(s[k])
  }

  /** The first position at or after `i` that is not whitespace, or `|s|`. */
  function StartOf(s: string, i: nat): (a: nat)
    requires i <= |s|
    ensures i <= a <= |s|
    ensures WhitespaceBetween(s, i, a)
    ensures a == |s| || !IsWhitespace(s[a])
    decreases |s| - i
  {
    if i < |s| && IsWhitespace(s[i]) then StartOf(s, i + 1) else i
  }

  /** The end of `s[lo..hi]` once trailing whitespace is dropped. */
  function EndOf(s: string, lo: nat, hi: nat): (b: nat)
    requires lo <= hi <= |s|
    ensures lo <= b <= hi
    ensures WhitespaceBetween(s, b, hi)
    ensures b == lo || !IsWhitespace(s[b - 1])
    decreases hi - lo
  {
    if lo < hi && IsWhitespace(s[hi - 1]) then EndOf(s, lo, hi - 1) else hi
  }

  /** `s.trim()`: `s` with its leading and trailing whitespace removed. */
  function Trim(s: string): (r: string)
    ensures |r| <= |s|
    ensures Trimmed(r)
  {
    var a := StartOf(s, 0);
    s[a..EndOf(s, a, |s|)]
  }

  /** What `Trim` keeps is one contiguous slice of its input, and what it
      drops on either side is whitespace. */
  lemma TrimKeepsInfix(s: string)
    ensures var a := StartOf(s, 0);
      && a + |Trim(s)| <= |s|
      && Trim(s) == s[a..a + |Trim(s)|]
      && WhitespaceBetween(s, 0, a)
      && WhitespaceBetween(s, a + |Trim(s)|, |s|)
  {
  }

  /** `StartOf` stops at the first non-whitespace position. */
  lemma {:induction false} StartOfStopsAt(s: string, i: nat, m: nat)
    requires i <= m <= |s|
    requires WhitespaceBetween(s, i, m)
    requires m == |s| || !IsWhitespace(s[m])
    ensures StartOf(s, i) == m
    decreases m - i
  {
    if i < m {
      StartOfStopsAt(s, i + 1, m);
    }
  }

  /** `EndOf` stops after the last non-whitespace position. */
  lemma {:induction false} EndOfStopsAt(s: string, lo: nat, hi: nat, m: nat)
    requires lo <= m <= hi <= |s|
    requires WhitespaceBetween(s, m, hi)
    requires m == lo || !IsWhitespace(s[m - 1])
    ensures EndOf(s, lo, hi) == m
    decreases hi - m
  {
    if m < hi {
      EndOfStopsAt(s, lo, hi - 1, m);
    }
  }

  /** Trimming removes exactly the surrounding whitespace: it is the
      inverse of padding a trimmed string with whitespace. */
  lemma TrimOfPadded(pre: string, mid: string, post: string)
    requires AllWhitespace(pre) && AllWhitespace(post) && Trimmed(mid)
    ensures Trim(pre + mid + post) == mid
  {
    var s := pre + mid + post;
    var a, b := |pre|, |pre| + |mid|;
    assert forall k :: 0 <= k < a ==> s[k] == pre[k];
    assert forall k :: b <= k < |s| ==> s[k] == post[k - b];
    if mid == [] {
      StartOfStopsAt(s, 0, |s|);
      EndOfStopsAt(s, |s|, |s|, |s|);
      assert s[|s|..|s|] == mid;
    } else {
      assert s[a] == mid[0] && s[b - 1] == mid[|mid| - 1];
      StartOfStopsAt(s, 0, a);
      EndOfStopsAt(s, a, |s|, b);
      assert s[a..b] == mid;
    }
  }

  lemma TrimAllWhitespace(s: string)
    requires AllWhitespace(s)
    ensures Trim(s) == []
  {
    TrimOfPadded(s, [], []);
    assert s + [] + [] == s;
  }

  // ---------------------------------------------------------------------
  // .map(trim).filter(non-empty).map(from_str).collect()

  /** The trimmed pieces that are not empty, in input order. */
  function NonEmptyTrimmed(pieces: seq<string>): (r: seq<string>)
    ensures |r| <= |pieces|
  {
    if pieces == [] then []
    else
      var t := Trim(pieces[0]);
      (if t == [] then [] else [t]) + NonEmptyTrimmed(pieces[1..])
  }

  /** One piece is kept, trimmed, exactly when it is not blank. */
  lemma NonEmptyTrimmedSingle(p: string)
    ensures NonEmptyTrimmed([p]) == if Trim(p) == [] then [] else [Trim(p)]
  {
    assert [p][1..] == [];
    var t := Trim(p);
    var head: seq<string> := if t == [] then [] else [t];
    assert head + [] == head;
  }

  /** Filtering works piece by piece, so it keeps the input order. */
  lemma {:induction false} NonEmptyTrimmedConcat(a: seq<string>, b: seq<string>)
    ensures NonEmptyTrimmed(a + b) == NonEmptyTrimmed(a) + NonEmptyTrimmed(b)
  {
    if a != [] {
      var ab := a + b;
      assert ab[0] == a[0] && ab[1..] == a[1..] + b;
      NonEmptyTrimmedConcat(a[1..], b);
      var t := Trim(a[0]);
      var head: seq<string> := if t == [] then [] else [t];
      var restA, restB := NonEmptyTrimmed(a[1..]), NonEmptyTrimmed(b);
      assert NonEmptyTrimmed(ab) == head + (restA + restB);
      assert NonEmptyTrimmed(a) == head + restA;
      ConcatAssoc(head, restA, restB);
    } else {
      assert a + b == b;
    }
  }

  lemma ConcatAssoc(x: seq<string>, y: seq<string>, z: seq<string>)
    ensures x + (y + z) == (x + y) + z
  {
  }

  /** Parse every piece; the first piece that does not parse is the error. */
  function CollectParsed(pieces: seq<string>, parse: string -> Option<Address>): (r: Result<seq<Address>, ConfigError>)
    ensures r.Ok? <==> forall i :: 0 <= i < |pieces| ==> parse(pieces[i]).Some?
    ensures r.Ok? ==> |r.value| == |pieces|
    ensures r.Ok? ==> forall i :: 0 <= i < |pieces| ==> parse(pieces[i]) == Some(r.value[i])
  {
    if pieces == [] then Ok([])
    else
      match parse(pieces[0])
      case None => Err(InvalidAddress(pieces[0]))
      case Some(a) =>
        match CollectParsed(pieces[1..], parse)
        case Ok(addrs) => Ok([a] + addrs)
        case Err(e) => Err(e)
  }

  /** The error names the first piece that does not parse. */
  lemma {:induction false} CollectReportsFirstFailure(pieces: seq<string>, parse: string -> Option<Address>)
    ensures CollectParsed(pieces, parse).Err? ==>
      exists k :: FirstFailure(pieces, parse, k) && CollectParsed(pieces, parse).error == InvalidAddress(pieces[k])
  {
    if pieces != [] && parse(pieces[0]).Some? {
      var rest := CollectParsed(pieces[1..], parse);
      CollectReportsFirstFailure(pieces[1..], parse);
      if rest.Err? {
        var k :| FirstFailure(pieces[1..], parse, k) && rest.error == InvalidAddress(pieces[1..][k]);
        assert FirstFailure(pieces, parse, k + 1);
      }
    } else if pieces != [] {
      assert FirstFailure(pieces, parse, 0);
    }
  }

  /** Piece `k` is the first that the parser rejects. */
  predicate FirstFailure(pieces: seq<string>, parse: string -> Option<Address>, k: int) {
    && 0 <= k < |pieces|
    && parse(pieces[k]).None?
    && forall j :: 0 <= j < k ==> parse(pieces[j]).Some?
  }

  /** `parse_addresses(csv)`: the addresses of the non-blank pieces in
      order, or the first such piece that is not an address. */
  function ParseAddresses(csv: string, parse: string -> Option<Address>): (r: Result<seq<Address>, ConfigError>)
    ensures var pieces := NonEmptyTrimmed(Split(csv));
      && (r.Ok? <==> forall i :: 0 <= i < |pieces| ==> parse(pieces[i]).Some?)
      && (r.Ok? ==> |r.value| == |pieces| && forall i :: 0 <= i < |pieces| ==> parse(pieces[i]) == Some(r.value[i]))
      && (r.Err? ==> exists k :: FirstFailure(pieces, parse, k) && r.error == InvalidAddress(pieces[k]))
  {
    var pieces := NonEmptyTrimmed(Split(csv));
    CollectReportsFirstFailure(pieces, parse);
    CollectParsed(pieces, parse)
  }

  // ---------------------------------------------------------------------
  // Properties of parse_addresses

  lemma {:induction false} NonEmptyTrimmedOfBlank(pieces: seq<string>)
    requires forall i :: 0 <= i < |pieces| ==> AllWhitespace(pieces[i])
    ensures NonEmptyTrimmed(pieces) == []
  {
    if pieces != [] {
      TrimAllWhitespace(pieces[0]);
      NonEmptyTrimmedOfBlank(pieces[1..]);
    }
  }

  lemma {:induction false} SplitOfBlank(s: string)
    requires forall i :: 0 <= i < |s| ==> s[i] == ',' || IsWhitespace(s[i])
    ensures forall i :: 0 <= i < |Split(s)| ==> AllWhitespace(Split(s)[i])
  {
    if s != [] {
      SplitOfBlank(s[1..]);
      var rest := Split(s[1..]);
      if s[0] != ',' {
        assert AllWhitespace([s[0]] + rest[0]);
      }
    }
  }

  /** Input made only of commas and whitespace yields an empty list, not an
      error: no non-emptiness is enforced. */
  lemma BlankInputParsesToEmpty(csv: string, parse: string -> Option<Address>)
    requires forall i :: 0 <= i < |csv| ==> csv[i] == ',' || IsWhitespace(csv[i])
    ensures ParseAddresses(csv, parse) == Ok([])
  {
    SplitOfBlank(csv);
    NonEmptyTrimmedOfBlank(Split(csv));
  }

  lemma SplitExample()
    ensures Split("a,,b,") == ["a", "", "b", ""]
  {
    assert Split("") == [""];
    assert "b," == "b" + "," + "";
    SplitAfterPiece("b", "");
    assert ",b," == "" + "," + "b,";
    SplitAfterPiece("", "b,");
    assert "a,,b," == "a" + "," + ",b,";
    SplitAfterPiece("a", ",b,");
  }

  lemma NonEmptyTrimmedExample()
    ensures NonEmptyTrimmed(["a", "", "b", ""]) == ["a", "b"]
  {
    TrimOfPadded("", "a", "");
    assert "" + "a" + "" == "a";
    TrimOfPadded("", "b", "");
    assert "" + "b" + "" == "b";
    TrimAllWhitespace("");
    NonEmptyTrimmedSingle("");
    var bBlank: seq<string> := ["b", ""];
    var blankBBlank: seq<string> := ["", "b", ""];
    var whole: seq<string> := ["a", "", "b", ""];
    assert bBlank[0] == "b" && bBlank[1..] == [""];
    assert NonEmptyTrimmed(bBlank) == ["b"] + NonEmptyTrimmed([""]);
    assert blankBBlank[0] == "" && blankBBlank[1..] == bBlank;
    assert NonEmptyTrimmed(blankBBlank) == [] + NonEmptyTrimmed(bBlank);
    assert whole[0] == "a" && whole[1..] == blankBBlank;
    assert NonEmptyTrimmed(whole) == ["a"] + NonEmptyTrimmed(blankBBlank);
  }

  lemma CollectParsedExample(parse: string -> Option<Address>)
    requires parse("a").Some? && parse("b").Some?
    ensures CollectParsed(["a", "b"], parse) == Ok([parse("a").value, parse("b").value])
  {
    var a, b := parse("a").value, parse("b").value;
    var one: seq<string> := ["b"];
    var two: seq<string> := ["a", "b"];
    assert one[0] == "b" && one[1..] == [];
    assert [b] + [] == [b];
    assert CollectParsed(one, parse) == Ok([b]);
    assert two[0] == "a" && two[1..] == one;
    assert [a] + [b] == [a, b];
  }

  /** Empty pieces are dropped: "a,,b," gives two entries. */
  lemma DropsEmptyPieces(parse: string -> Option<Address>)
    requires parse("a").Some? && parse("b").Some?
    ensures ParseAddresses("a,,b,", parse) == Ok([parse("a").value, parse("b").value])
  {
    SplitExample();
    NonEmptyTrimmedExample();
    CollectParsedExample(parse);
  }
}
