/**
 * The component's state and lifecycle: `points` (initially `[]`) and
 * `userLocation` (initially `null`), each replaced as a whole value by its
 * setter; the mount effects that decode `q` and start the location poll; the
 * cleanup that stops the poll; and the data each render hands to the widgets.
 */
module MapComponent {
  import opened Wrappers
  import opened TrackDecoder
  import opened RenderData
  import opened LocationPoller

  class LeafletMap {
    /** The route's points; state that starts empty. */
    var points: seq<Point>
    /** The latest device location; state that starts as `null`. */
    var userLocation: Option<Location>
    /** The interval started by the location effect. */
    var poller: Poller

    ghost predicate Valid()
      reads this, poller
    {
      poller.Valid()
    }

    /** The first render: no points, no location, the poll not yet started. */
    constructor (now: int)
      ensures Valid() && fresh(poller)
      ensures points == [] && userLocation == None
      ensures !poller.started && poller.clock == now
    {
      points, userLocation := [], None;
      poller := new Poller(now);
    }

    /** The points setter: the whole route is replaced. */
    method SetPoints(coords: seq<Point>)
      modifies this`points
      ensures points == coords
    {
      points := coords;
    }

    /** The location setter: the latest sample replaces the previous one. */
    method SetUserLocation(sample: Location)
      modifies this`userLocation
      ensures userLocation == Some(sample)
    {
      userLocation := Some(sample);
    }

    /** The `q` effect: the points are set from `q` when it is present and non-empty. */
    method LoadQuery(parse: string -> Num, query: Option<string>)
      modifies this`points
      ensures query == None || query == Some("") ==> points == old(points)
      ensures query.Some? && query.value != "" ==> points == Decode(parse, query.value)
    {
      match DecodeQueryParam(parse, query)
      case Some(coords) => SetPoints(coords);
      case None =>
    }

    /** The geolocation callback: the position's latitude and longitude become the location. */
    method OnPosition(latitude: real, longitude: real)
      modifies this`userLocation
      ensures userLocation == Some(Location(latitude, longitude))
    {
      SetUserLocation(Location(latitude, longitude));
    }

    /** Mounting runs both effects: decode `q`, then issue the first location request and set the interval. */
    method Mount(parse: string -> Num, query: Option<string>)
      requires Valid() && !poller.started
      modifies this`points, poller
      ensures Valid() && poller == old(poller)
      ensures query == None || query == Some("") ==> points == old(points)
      ensures query.Some? && query.value != "" ==> points == Decode(parse, query.value)
      ensures poller.started && !poller.cancelled && poller.requestsIssued == 1
    {
      LoadQuery(parse, query);
      poller.Start();
    }

    /** Unmounting runs the location effect's cleanup: the interval is cleared. */
    method Unmount()
      requires Valid() && poller.started
      modifies poller
      ensures Valid() && poller.cancelled
      ensures poller.requestsIssued == old(poller.requestsIssued)
    {
      poller.Cancel();
    }

    /** What the current state renders: the route's polyline and waypoints and the user marker. */
    function View(show: Num -> string): (scene: Scene)
      reads this
      ensures scene.polyline.Some? <==> |points| > 1
      ensures |scene.waypoints| == |points|
      ensures forall i :: 0 <= i < |points| ==> scene.waypoints[i].href == NavigationUrl(show, points[i])
      ensures scene.userMarker.Some? <==> userLocation.Some?
    {
      Render(show, points, userLocation)
    }
  }

  /**
   * A fresh component mounted with `q`: the number of waypoint markers it
   * renders is the number of `|`-separated tokens of `q`, or none when `q` is
   * absent or empty.
   */
  method WaypointsAfterMount(parse: string -> Num, show: Num -> string, query: Option<string>) returns (shown: nat)
    ensures query == None || query == Some("") ==> shown == 0
    ensures query.Some? && query.value != "" ==> shown == multiset(query.value)['|'] + 1
  {
    var component := new LeafletMap(0);
    component.Mount(parse, query);
    shown := |component.View(show).waypoints|;
  }
}
