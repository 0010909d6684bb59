/**
 * The decoder of the inline route: the `q` query parameter, a `|`-separated list
 * of `lat,lon` tokens, turned into the component's `points`.
 *
 * `parseFloat` is not modelled digit by digit: the text-to-number step is the
 * parameter `parse`, and `parseFloat(undefined)` is NaN, as in JavaScript.
 */
module TrackDecoder {
  import opened Wrappers
  import opened JsText

  /** A JavaScript number as the decoder produces it: a value, or NaN. */
  datatype Num = Num(value: real) | NaN

  /** The `{ lat, lon }` object built for each token. */
  datatype Point = Point(lat: Num, lon: Num)

  /** `parseFloat` of a field; an absent field is `undefined` and parses to NaN. */
  function ParseFloat(parse: string -> Num, field: Option<string>): Num
  {
    match field
    case None => NaN
    case Some(text) => parse(text)
  }

  /** Array destructuring: element `k` of `fields`, or `undefined` past its end. */
  function Element(fields: seq<string>, k: nat): Option<string>
  {
    if k < |fields| then Some(fields[k]) else None
  }

  /** A token split on commas; its first two fields, parsed, are the point's latitude and longitude. */
  function DecodeToken(parse: string -> Num, token: string): (p: Point)
    ensures p.lat == parse(token[..IndexOf(token, ',')])
    ensures p.lon == NaN || exists field :: p.lon == parse(field)
  {
    SplitAtFirst(token, ',');
    assert token[..|token|] == token;
    var fields := Split(token, ',');
    Point(ParseFloat(parse, Element(fields, 0)), ParseFloat(parse, Element(fields, 1)))
  }

  /**
   * `lat` is parsed from the text before the first comma and `lon` from the text
   * between the first and the second comma; further fields are ignored. A token
   * without a comma keeps its whole text as `lat` and gets a NaN `lon`.
   */
  lemma TokenFields(parse: string -> Num, token: string)
    ensures var i := IndexOf(token, ',');
      i == |token| ==> DecodeToken(parse, token) == Point(parse(token), NaN)
    ensures var i := IndexOf(token, ',');
      i < |token| ==>
        var after := token[i + 1..];
        DecodeToken(parse, token) == Point(parse(token[..i]), parse(after[..IndexOf(after, ',')]))
  {
    var i := IndexOf(token, ',');
    SplitAtFirst(token, ',');
    if i < |token| {
      var after := token[i + 1..];
      SplitAtFirst(after, ',');
      assert after[..|after|] == after;
    }
  }

  /** The `q` text split on `|`, one point per token, in token order. */
  function Decode(parse: string -> Num, query: string): (points: seq<Point>)
    ensures |points| == |Split(query, '|')| == multiset(query)['|'] + 1
    ensures forall i :: 0 <= i < |points| ==> points[i] == DecodeToken(parse, Split(query, '|')[i])
  {
    SplitCount(query, '|');
    var tokens := Split(query, '|');
    seq(|tokens|, i requires 0 <= i < |tokens| => DecodeToken(parse, tokens[i]))
  }

  /**
   * The mount effect: `params.get('q')` is absent (`null`) or a string, and the
   * points are decoded only when it is truthy, i.e. present and non-empty.
   * `None` means `setPoints` is not called.
   */
  function DecodeQueryParam(parse: string -> Num, query: Option<string>): (decoded: Option<seq<Point>>)
    ensures decoded.None? <==> (query == None || query == Some(""))
    ensures decoded.Some? ==> |decoded.value| >= 1 && decoded.value == Decode(parse, query.value)
  {
    if query.Some? && query.value != "" then Some(Decode(parse, query.value)) else None
  }

  /** A token without `|` decodes to exactly one point. */
  lemma SingleToken(parse: string -> Num, token: string)
    requires '|' !in token
    ensures Decode(parse, token) == [DecodeToken(parse, token)]
  {
    SplitNoSeparator(token, '|');
  }

  /**
   * Order is preserved and tokens are decoded independently: the points of
   * `a|b` are the points of `a` followed by the points of `b`.
   */
  lemma DecodeConcat(parse: string -> Num, a: string, b: string)
    ensures Decode(parse, a + ['|'] + b) == Decode(parse, a) + Decode(parse, b)
  {
    SplitConcat(a, '|', b);
    var whole, left, right := Decode(parse, a + ['|'] + b), Decode(parse, a), Decode(parse, b);
    assert |whole| == |left| + |right| by {
      assert |Split(a + ['|'] + b, '|')| == |Split(a, '|')| + |Split(b, '|')|;
    }
    forall i | 0 <= i < |whole| ensures whole[i] == (left + right)[i] {
      if i < |left| {
        assert Split(a + ['|'] + b, '|')[i] == Split(a, '|')[i];
      } else {
        assert Split(a + ['|'] + b, '|')[i] == Split(b, '|')[i - |left|];
      }
    }
  }

  /** `show` writes `n` as text that `parse` reads back, with neither separator in it. */
  ghost predicate WritesBack(parse: string -> Num, show: Num -> string, n: Num)
  {
    parse(show(n)) == n && ',' !in show(n) && '|' !in show(n)
  }

  /**
   * `show` renders a number as text (JavaScript's number-to-string), and `parse`
   * reads back every number the decoder can produce: NaN and whatever `parse`
   * itself returns.
   */
  ghost predicate NumberText(parse: string -> Num, show: Num -> string)
  {
    WritesBack(parse, show, NaN) && forall field :: WritesBack(parse, show, parse(field))
  }

  /** The weakest pair of number formats satisfies `NumberText`, so it excludes no model of `parse`. */
  lemma NumberTextSatisfiable()
    ensures NumberText(field => NaN, n => "")
  {
  }

  /** A point written as a token: latitude text, a comma, longitude text. */
  function EncodePoint(show: Num -> string, p: Point): string
  {
    show(p.lat) + [','] + show(p.lon)
  }

  /** The tokens of `points` joined with `|`, the inverse of `Decode`. */
  function Encode(show: Num -> string, points: seq<Point>): string
    requires |points| > 0
  {
    Join(seq(|points|, i requires 0 <= i < |points| => EncodePoint(show, points[i])), '|')
  }

  /** A decoded point, written back as a token, decodes to itself. */
  lemma DecodeTokenEncode(parse: string -> Num, show: Num -> string, token: string)
    requires NumberText(parse, show)
    ensures var p := DecodeToken(parse, token);
      DecodeToken(parse, EncodePoint(show, p)) == p
  {
    var p := DecodeToken(parse, token);
    assert WritesBack(parse, show, p.lat);
    assert WritesBack(parse, show, p.lon) by {
      if p.lon != NaN {
        var field :| p.lon == parse(field);
        assert WritesBack(parse, show, parse(field));
      }
    }
    var lat, lon := show(p.lat), show(p.lon);
    SplitHead(lat, ',', lon);
    SplitNoSeparator(lon, ',');
  }

  /** Round trip: a decoded route, written back as a `q` string, decodes to the same route. */
  lemma DecodeEncode(parse: string -> Num, show: Num -> string, query: string)
    requires NumberText(parse, show)
    ensures var points := Decode(parse, query);
      Decode(parse, Encode(show, points)) == points
  {
    var points := Decode(parse, query);
    var tokens := seq(|points|, i requires 0 <= i < |points| => EncodePoint(show, points[i]));
    forall i | 0 <= i < |tokens| ensures '|' !in tokens[i] && DecodeToken(parse, tokens[i]) == points[i] {
      var token := Split(query, '|')[i];
      DecodeTokenEncode(parse, show, token);
      var p := points[i];
      assert WritesBack(parse, show, p.lat);
      assert WritesBack(parse, show, p.lon) by {
        if p.lon != NaN {
          var field :| p.lon == parse(field);
          assert WritesBack(parse, show, parse(field));
        }
      }
    }
    SplitJoin(tokens, '|');
  }
}
