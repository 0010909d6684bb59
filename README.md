# stebule-map: the inline route, its rendering data and the location poll

A Dafny model of the core of `src/App.js`, a React component that draws a route on a
Leaflet map. The route arrives inline in the `q` query parameter, for example
`q=57.68,11.99|57.69,12.00`. The component:

- splits `q` on `|` into tokens;
- splits each token on `,` and keeps the first two fields as `lat` and `lon`
  (array destructuring);
- passes each field through `parseFloat`.

The decoded `points` replace the initial empty list. Every render hands the widgets
three things:

- the positions `[lat, lon]` of a polyline, drawn only with two or more points;
- one waypoint marker per point, whose popup links to
  `https://www.google.com/maps/dir/?api=1&destination=<lat>,<lon>`;
- a marker for the user's location, once a location is known.

A second effect requests the device location once right away and then every 5000 ms.
Its cleanup clears that interval.

Modules:

- `JsText`: JavaScript's `split` and `join` with a one-character separator. Like
  JavaScript, `"".split(c)` gives `[""]`. `Split` is characterised by `JoinSplit` and
  `SplitJoin`, and `SplitAtFirst` says which text lands in the first piece.
- `TrackDecoder`: `Num` (a value or NaN) and `Point`. `DecodeToken`, `Decode` and
  `DecodeQueryParam` are the mount effect's guard and decoding. `Encode` is the
  inverse used to state the round trip. The model does not fix how text becomes a
  number: `parse` stands for `parseFloat` on a string, and `show` stands for
  JavaScript's number-to-string in the template literal. The predicate `NumberText`
  says that `parse` reads back what `show` writes for NaN and for every number
  `parse` can return, and that such a written number holds no `,` and no `|`. An
  absent field (`undefined`) always parses to NaN.
- `RenderData`: `PolylinePoints`, `NavigationUrl`, `Waypoints` and `Render`, which
  gives the data of one render.
- `LocationPoller`: the class `Poller`, the `setInterval` lifecycle against an
  explicit clock in milliseconds. `RequestsBy(start, now)` is the number of requests
  a running poll has issued by `now`.
- `MapComponent`: the class `LeafletMap` with the two state fields and their
  whole-value setters, the mount effects and the unmount cleanup.

Three behaviours of the code are worth stating because a reader might expect otherwise:

- Points with a NaN coordinate are not filtered out. A token such as `1.0`
  (no comma) gives `lon = NaN`, and that point reaches the polyline and the markers.
- An empty `q` is not decoded at all, and `points` keeps its initial `[]`. A non-empty
  `q` always decodes to at least one point, and `a||b` gives a middle point whose
  `lat` is `parseFloat("")` and whose `lon` is NaN.
- The location request passes no error callback to `getCurrentPosition`, so a
  failed request is silently dropped and the next interval asks again.

## Model

| member | source | states |
|---|---|---|
| `JsText.IndexOf` | src/App.js:16 | the first comma's index: every earlier character differs from it, and the index is the length exactly when there is no comma |
| `JsText.Split` | src/App.js:15-16 | `split` always returns at least one piece, and no piece contains the separator |
| `JsText.SplitCount` | src/App.js:15 | `split` returns exactly one more piece than the string has separators |
| `JsText.JoinSplit` | src/App.js:15 | splitting loses no text: joining the pieces with the separator rebuilds the string |
| `JsText.SplitJoin` | src/App.js:15 | splitting undoes joining pieces that do not contain the separator, so `split` is determined by its pieces |
| `JsText.SplitNoSeparator` | src/App.js:16 | a string without the separator splits into itself alone |
| `JsText.SplitAtFirst` | src/App.js:16 | the first piece is the text before the first separator, and the other pieces are the pieces of the text after it |
| `JsText.SplitConcat` | src/App.js:15 | the pieces of `a + sep + b` are the pieces of `a` followed by the pieces of `b` |
| `TrackDecoder.DecodeToken` | src/App.js:16-17 | a point's `lat` is parsed from the text before the token's first comma, and its `lon` is NaN or a number `parse` can produce |
| `TrackDecoder.TokenFields` | src/App.js:16-17 | `lat` is parsed from the text before the first comma and `lon` from the text between the first and second commas; further fields are ignored; a token without a comma gets its whole text as `lat` and a NaN `lon` |
| `TrackDecoder.Decode` | src/App.js:15-18 | one point per pipe-separated token (one more than the number of pipes), and point i is decoded from token i |
| `TrackDecoder.DecodeQueryParam` | src/App.js:13-20 | nothing is decoded exactly when `q` is absent or empty; otherwise the decoded route is non-empty and is the decoding of `q` |
| `TrackDecoder.SingleToken` | src/App.js:15-18 | a `q` without a pipe yields exactly one point, that token's point |
| `TrackDecoder.DecodeConcat` | src/App.js:15-18 | order is preserved and tokens are independent: the points of `a` pipe `b` are the points of `a` followed by those of `b` |
| `TrackDecoder.DecodeTokenEncode` | src/App.js:16-17 | a decoded point, written back as `lat,lon`, decodes to the same point |
| `TrackDecoder.DecodeEncode` | src/App.js:15-18 | round trip: a decoded route, written back as pipe-joined tokens, decodes to the same route |
| `RenderData.PolylinePoints` | src/App.js:44 | one position per point, in order, and each position is the pair `[lat, lon]` of its point |
| `RenderData.PolylineInjective` | src/App.js:44 | the polyline positions lose no information: equal polylines come from equal routes |
| `RenderData.NavigationUrl` | src/App.js:60 | the link starts with the fixed directions URL, followed by the point written as a `lat,lon` token |
| `RenderData.NavigationUrlDestination` | src/App.js:60 | the destination of a decoded point's navigation link decodes back to that point |
| `RenderData.NavigationUrlInjective` | src/App.js:60 | two decoded points get the same navigation link exactly when they are the same point |
| `RenderData.Waypoints` | src/App.js:56-60 | one marker per point, in order: marker i has key i, is centred on point i, and links to point i's directions |
| `RenderData.Render` | src/App.js:54-72 | a polyline of the route's positions is drawn exactly when there are more than one point, there is one waypoint per point, and the user marker is drawn exactly when a location is known, at that location |
| `RenderData.WaypointsFollowPoints` | src/App.js:56-60 | waypoint i has key i, sits at polyline position i, and carries the navigation link of point i |
| `RenderData.WaypointLinksBack` | src/App.js:56-60 | on a route decoded from `q`, the destination in waypoint i's link decodes back to point i |
| `RenderData.InlineRouteScene` | src/App.js:54-56 | for a route decoded from a non-empty `q`: one waypoint per token, and a polyline exactly when `q` contains a pipe |
| `LocationPoller.RequestsBy` | src/App.js:38-39 | by time `now`, a running poll has issued one request plus one per whole 5000 ms interval elapsed: the last was due at or before `now`, and the next is due after it |
| `LocationPoller.Schedule` | src/App.js:39 | k whole intervals after the start, and less than one more, k + 1 requests have been issued |
| `LocationPoller.Poller.constructor` | src/App.js:28 | before the effect runs, the poll is neither started nor cancelled and has issued nothing |
| `LocationPoller.Poller.Start` | src/App.js:38-39 | starting issues exactly one request at once and arms the interval |
| `LocationPoller.Poller.Tick` | src/App.js:39 | when time advances, a running poll issues one request per interval that has come due, and a cleared poll issues none |
| `LocationPoller.Poller.Cancel` | src/App.js:41 | clearing the interval issues no request and freezes the count; clearing it again changes nothing |
| `LocationPoller.PollThenCancel` | src/App.js:38-41 | started at 0 ms: two requests by 5000 ms; cleared at 6000 ms: still two at 10000 ms |
| `MapComponent.LeafletMap.constructor` | src/App.js:8-9 | the component starts with no points and no user location |
| `MapComponent.LeafletMap.SetPoints` | src/App.js:19 | the route is replaced as a whole value |
| `MapComponent.LeafletMap.SetUserLocation` | src/App.js:31-34 | the latest location sample replaces the previous one |
| `MapComponent.LeafletMap.LoadQuery` | src/App.js:11-21 | `points` becomes the decoding of `q` when `q` is present and non-empty, and is otherwise left unchanged |
| `MapComponent.LeafletMap.OnPosition` | src/App.js:30-35 | a position callback stores `{lat, lon}` from the position's coordinates |
| `MapComponent.LeafletMap.Mount` | src/App.js:11-42 | mounting decodes `q` into `points` and starts the poll with exactly one request |
| `MapComponent.LeafletMap.Unmount` | src/App.js:41 | the cleanup cancels the poll and issues no further request |
| `MapComponent.LeafletMap.View` | src/App.js:44-77 | the current state renders a polyline exactly when there are more than one point, one waypoint per point with that point's link, and a user marker exactly when a location is known |
| `MapComponent.WaypointsAfterMount` | src/App.js:13-19 | a freshly mounted component renders one waypoint per pipe-separated token of `q`, and none when `q` is absent or empty |

## Left out

- `URLSearchParams` decoding of the address. `q` is taken as the already-decoded string, or as absent.
- The digit-level behaviour of `parseFloat` and of number-to-string. These are the parameters `parse` and `show`. The round-trip lemmas (`DecodeTokenEncode`, `DecodeEncode`, `NavigationUrlDestination`, `NavigationUrlInjective`, `WaypointLinksBack`) assume, through `NumberText`, that `parse` reads back what `show` writes for NaN and for every number `parse` returns, and that those written numbers contain no `,` or `|`. They are therefore stated only for points of a decoded route, not for arbitrary reals.
- Infinite numbers. `Num` holds a real value or NaN, and `parseFloat("Infinity")` has no counterpart.
- `navigator.geolocation.getCurrentPosition` itself. Each request is counted, and each answer is an input to `OnPosition`. A callback from a request still in flight when the interval is cleared can still call `OnPosition`. The model, like the code, does nothing to stop that.
- The recentering effect at lines 22-26. It assigns to the ref object and depends on the ordering of `Object.values`. No map API call is made, so there is nothing to state about it.
- The widgets (`MapContainer`, `TileLayer`, `Polyline`, `CircleMarker`, `Marker`, `Popup`) and their fixed options: the default center and zoom, the colours, the radius and the opacity.
- React's scheduling of effects and re-renders. Each effect runs once, in the order `Mount` gives. Timers are advanced explicitly through `Poller.Tick`.
- Parts of the wider system that are not in `src/App.js`: fetching routes by `id`, colouring fetched routes, centring on a route's midpoint, and filtering NaN points.
