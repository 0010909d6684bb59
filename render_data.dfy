/**
 * What the component hands to the map widgets on each render: the polyline's
 * positions, one waypoint marker per point with its navigation link, and the
 * user-location marker. The widgets themselves are not modelled.
 */
module RenderData {
  import opened Wrappers
  import JsText
  import opened TrackDecoder

  /** A device location sample: the latitude and longitude of a reported position. */
  datatype Location = Location(lat: real, lon: real)

  /** A waypoint marker: its React `key`, its `center` and the link in its popup. */
  datatype Waypoint = Waypoint(key: nat, center: seq<Num>, href: string)

  /** The data of one render: the polyline (if drawn), the waypoints, the user marker (if drawn). */
  datatype Scene = Scene(polyline: Option<seq<seq<Num>>>, waypoints: seq<Waypoint>, userMarker: Option<seq<real>>)

  /** A point as the two-element position array the widgets take, latitude first. */
  function Position(p: Point): seq<Num>
  {
    [p.lat, p.lon]
  }

  /** Reads a two-element position back as a point. */
  function PointOf(position: seq<Num>): Point
    requires |position| == 2
  {
    Point(position[0], position[1])
  }

  /** The polyline's positions: each point's position, in route order. */
  function PolylinePoints(points: seq<Point>): (positions: seq<seq<Num>>)
    ensures |positions| == |points|
    ensures forall i :: 0 <= i < |positions| ==> |positions[i]| == 2 && PointOf(positions[i]) == points[i]
  {
    seq(|points|, i requires 0 <= i < |points| => Position(points[i]))
  }

  /** The polyline positions lose nothing: different routes give different polylines. */
  lemma PolylineInjective(a: seq<Point>, b: seq<Point>)
    requires PolylinePoints(a) == PolylinePoints(b)
    ensures a == b
  {
  }

  /** The fixed part of the "navigate here" link. */
  const NavigationBase := "https://www.google.com/maps/dir/?api=1&destination="

  /**
   * The directions link of a waypoint: the fixed base, then the point written as
   * a token (its latitude and longitude as text, comma-separated).
   */
  function NavigationUrl(show: Num -> string, p: Point): (url: string)
    ensures |NavigationBase| < |url| && url[..|NavigationBase|] == NavigationBase
    ensures url[|NavigationBase|..] == EncodePoint(show, p)
  {
    NavigationBase + show(p.lat) + [','] + show(p.lon)
  }

  /**
   * The link of a waypoint of a decoded route names that waypoint: past the
   * fixed base, its destination is a token the route decoder reads back as the
   * same point.
   */
  lemma NavigationUrlDestination(parse: string -> Num, show: Num -> string, token: string)
    requires NumberText(parse, show)
    ensures var p := DecodeToken(parse, token);
      DecodeToken(parse, NavigationUrl(show, p)[|NavigationBase|..]) == p
  {
    DecodeTokenEncode(parse, show, token);
  }

  /** Two decoded points get the same link exactly when they are the same point. */
  lemma NavigationUrlInjective(parse: string -> Num, show: Num -> string, a: string, b: string)
    requires NumberText(parse, show)
    ensures var p, q := DecodeToken(parse, a), DecodeToken(parse, b);
      NavigationUrl(show, p) == NavigationUrl(show, q) <==> p == q
  {
    NavigationUrlDestination(parse, show, a);
    NavigationUrlDestination(parse, show, b);
  }

  /** One marker per point, keyed by its index, centred on the point, linking to its directions. */
  function Waypoints(show: Num -> string, points: seq<Point>): (markers: seq<Waypoint>)
    ensures |markers| == |points|
    ensures forall i :: 0 <= i < |markers| ==>
      markers[i].key == i && |markers[i].center| == 2 && PointOf(markers[i].center) == points[i] &&
      markers[i].href == NavigationUrl(show, points[i])
  {
    seq(|points|, i requires 0 <= i < |points| => Waypoint(i, Position(points[i]), NavigationUrl(show, points[i])))
  }

  /**
   * One render of the component: a polyline only when there are at least two
   * points, one waypoint per point, a user marker exactly when a location is known.
   */
  function Render(show: Num -> string, points: seq<Point>, userLocation: Option<Location>): (scene: Scene)
    ensures scene.polyline.Some? <==> |points| > 1
    ensures scene.polyline.Some? ==> scene.polyline.value == PolylinePoints(points)
    ensures |scene.waypoints| == |points|
    ensures scene.userMarker.Some? <==> userLocation.Some?
    ensures userLocation.Some? ==> scene.userMarker.value == [userLocation.value.lat, userLocation.value.lon]
  {
    Scene(
      if |points| > 1 then Some(PolylinePoints(points)) else None,
      Waypoints(show, points),
      match userLocation
      case None => None
      case Some(here) => Some([here.lat, here.lon]))
  }

  /**
   * Waypoint i has key i (so the keys are distinct), sits at position i of the
   * polyline, and its link is the directions link of point i.
   */
  lemma WaypointsFollowPoints(show: Num -> string, points: seq<Point>, userLocation: Option<Location>)
    ensures var scene := Render(show, points, userLocation);
      forall i :: 0 <= i < |points| ==>
        var w := scene.waypoints[i];
        w.key == i && w.center == PolylinePoints(points)[i] && w.href == NavigationUrl(show, points[i])
  {
  }

  /** On a route decoded from `q`, the link of waypoint i leads back to point i. */
  lemma WaypointLinksBack(parse: string -> Num, show: Num -> string, query: string, userLocation: Option<Location>)
    requires NumberText(parse, show)
    ensures var points := Decode(parse, query);
      var scene := Render(show, points, userLocation);
      forall i :: 0 <= i < |points| ==>
        DecodeToken(parse, scene.waypoints[i].href[|NavigationBase|..]) == points[i]
  {
    var points := Decode(parse, query);
    forall i | 0 <= i < |points|
      ensures DecodeToken(parse, NavigationUrl(show, points[i])[|NavigationBase|..]) == points[i]
    {
      NavigationUrlDestination(parse, show, JsText.Split(query, '|')[i]);
    }
  }

  /**
   * For an inline route decoded from `q`: one waypoint per `|`-separated token,
   * and a polyline exactly when `q` holds a `|`.
   */
  lemma InlineRouteScene(parse: string -> Num, show: Num -> string, query: string, userLocation: Option<Location>)
    requires query != ""
    ensures var scene := Render(show, Decode(parse, query), userLocation);
      |scene.waypoints| == multiset(query)['|'] + 1 &&
      (scene.polyline.Some? <==> '|' in query)
  {
  }
}
