# Interactive Map: a Dafny model of the region-detection core

The Interactive Map program calibrates a printed map against a webcam image and lets an operator draw named polygons ("countries") on the warped map. It then watches up to two fingertips and highlights the countries they touch. When exactly two country names are detected, it shows a flight-information box with the distance and estimated flight time between them.

This project models the sequential logic under the OpenCV and webcam glue:

- `geometry.dfy` (`Geometry`): integer points and closed polygons. `Contains` is boundary-inclusive containment. It uses the even-odd ray-crossing rule plus an exact on-segment test, and stands in for OpenCV's `pointPolygonTest(...) >= 0`. `PointPolygonTest` is a one-pass loop returning `0`, `+1` or `-1` in the manner of OpenCV.
- `regions.dfy` (`Regions`): the region record, the ordered store, the per-tip hit-test in store order, and the truncated vertex average used to place a region's label.
- `authoring.dfy` (`Authoring`): the authoring screen of `get_countries.py`. It covers clicks on the in-progress polygon, the commit, write and delete keys, loading the countries file at start-up, and the single-hand hit-test.
- `calibration.dfy` (`Calibration`): the four-slot calibration array of `get_map.py` and its counter. It covers reset, the completeness-gated warp and save, and the destination-corner order TL, TR, BL, BR.
- `flight.dfy` (`Flight`): `flight_info_backend.py`. The latitude-adjusted flight time is computed over `real`. The geocoding cache is modelled with the geocoder and the geodesic distance passed in as functions.
- `detection.dfy` (`Detection`): the live screen of `front_end_logic.py`. Tips come from at most two hands and are hit-tested in (tip, store) order. The overlay is the list of shapes drawn on it, with a line drawn only for two tips. The info box is requested exactly when two names are detected. A frame with no hands passes through untouched.
- `wrappers.dfy` (`Wrappers`): `Option` and `Result`.

Images, windows and pixel buffers are not modelled. An overlay is the sequence of shapes drawn on it. A frame's output is either "the camera frame as captured" or "the camera frame composed with an overlay layer and an info layer".

The model follows the code as written. Behaviours that are easy to misread:

- Saving an empty store writes nothing, so the file keeps its previous regions (`Authoring.SaveEmptyKeepsOldFile`). "Load after save" therefore reproduces only non-empty stores.
- Loading survives a missing file and any file on which unpickling runs out of input and raises `EOFError`: an empty file, or a pickle cut off right after its two-byte protocol header or, for a store over 64 KiB, at a frame boundary. Both give an empty store. A cut inside a frame raises `UnpicklingError` instead and is the failure case below. Any other unpickling failure escapes the `try` blocks, which only catch `FileNotFoundError` and `EOFError`. `Authoring.Load` returns `Failure` for it instead of an empty store.
- A commit is refused only for polygons of two or fewer points. The typed name is not checked, and a refused commit raises no error and changes nothing.
- The info box is requested when exactly two *names* were detected, not when two tips each matched one region. A single tip inside two overlapping regions triggers it (`Detection.OneTipTwoRegions`). So do two tips in the same region, which gives the same name twice (`Detection.SameRegionTwice`).
- `get_countries.py`'s `counter` counts commits. Undo does not decrease it, so it is not the number of stored regions.
- The back-projection in `front_end_logic.py` maps the overlay corners `(w - 1, 0)`, `(0, h - 1)` and `(w - 1, h - 1)`. The forward warp of `get_map.py` uses `(w, 0)`, `(0, h)` and `(w, h)`. So the back-projection is not the exact inverse of the forward warp (`Detection.InverseWarpCorners`). The pixel-level effect is not modelled.

## Model

| member | source | states |
|---|---|---|
| Geometry.PointPolygonTest | Interactive_Map/GetCountryPolygons/front_end_logic.py:53 | The one-pass classification returns 0 exactly on an edge, +1 exactly when strictly inside by the even-odd rule, and -1 otherwise. A result `>= 0` holds exactly when the polygon contains the point, boundary included. |
| Geometry.VertexContained | Interactive_Map/GetCountryPolygons/get_countries.py:120 | Boundary points count as inside: every vertex of a polygon lies on its boundary and is contained. |
| Geometry.TranslationInvariant | Interactive_Map/GetCountryPolygons/front_end_logic.py:53 | Containment depends only on the relative position of the point and the polygon. Shifting both by the same offset never changes the verdict. |
| Geometry.OutsideBoundingBox | Interactive_Map/GetCountryPolygons/front_end_logic.py:53 | A point strictly beyond every vertex on one side (west, east, north or south) is not contained. The west side needs the fact that a closed walk crosses a horizontal line an even number of times. |
| Regions.MatchIndices | Interactive_Map/GetCountryPolygons/front_end_logic.py:52-53 | The store positions matched for one tip ascend strictly. A position is listed exactly when its polygon contains the tip. |
| Regions.HitTest | Interactive_Map/GetCountryPolygons/get_countries.py:119-121 | One tip's hit-test lists the containing regions in store order, one entry per matched position, and never more than the store holds. Every entry is a stored region whose polygon contains the tip. |
| Regions.HitTestExact | Interactive_Map/GetCountryPolygons/get_countries.py:119-121 | A stored region is reported for a tip if and only if its polygon contains the tip, boundary included. |
| Regions.TruncDiv | Interactive_Map/GetCountryPolygons/get_countries.py:48 | `int(a / n)` truncates toward zero. It is the floor for a non-negative total and the ceiling for a negative one. |
| Regions.Average | Interactive_Map/GetCountryPolygons/get_countries.py:44-48 | The truncated mean of a non-empty coordinate list lies between the list's minimum and maximum. For a non-negative total it is the floor of the mean. |
| Regions.Centroid | Interactive_Map/GetCountryPolygons/get_countries.py:43-48 | A polygon's label position lies in its bounding box. With non-negative coordinates each coordinate is the floor of the vertex average. |
| Authoring.Click | Interactive_Map/GetCountryPolygons/get_countries.py:35-38 | A left click appends exactly that point to the end of the in-progress polygon and changes nothing else. |
| Authoring.Commit | Interactive_Map/GetCountryPolygons/get_countries.py:68-72 | With more than two points, the polygon and its name become the last region and earlier regions are unchanged. The polygon restarts empty and the commit count goes up by one. With two or fewer points nothing changes. |
| Authoring.Undo | Interactive_Map/GetCountryPolygons/get_countries.py:85-86 | On a non-empty store, undo removes exactly the last region and keeps the others in order. On an empty store it is a no-op. |
| Authoring.CommitThenUndo | Interactive_Map/GetCountryPolygons/get_countries.py:68-86 | A successful commit followed by an undo restores the earlier store. The in-progress polygon is not restored: it stays empty. |
| Authoring.UndoEmptyIdle | Interactive_Map/GetCountryPolygons/get_countries.py:85 | Pressing undo on an empty store, once or twice, changes nothing. |
| Authoring.UndoTwiceScenario | Interactive_Map/GetCountryPolygons/get_countries.py:85-86 | With regions A, B and C stored, two undos leave only A. |
| Authoring.Load | Interactive_Map/GetCountryPolygons/get_countries.py:22-32 | A pickled store loads as itself. A missing file, or one on which unpickling runs out of input (empty, or cut off right after the protocol header or at a 64 KiB frame boundary), gives an empty store. Any other unreadable file is the one failure. |
| Authoring.Save | Interactive_Map/GetCountryPolygons/get_countries.py:76-82 | A non-empty store replaces the file's contents. An empty store is never written, so the file is left as it was. |
| Authoring.SaveLoadRoundTrip | Interactive_Map/GetCountryPolygons/get_countries.py:76-82 | Loading after saving a non-empty store gives back exactly that store, whatever the file held before. |
| Authoring.SaveEmptyKeepsOldFile | Interactive_Map/GetCountryPolygons/get_countries.py:77-82 | After saving an empty store, a load returns the regions the file held before, not an empty store. |
| Authoring.HandleKey | Interactive_Map/GetCountryPolygons/get_countries.py:65-86 | Each key triggers only its own action, and the quit key or any other key leaves the whole state unchanged. The file changes only on the write key with a non-empty store. The store changes only on the commit and delete keys. |
| Authoring.HandleKeyKeepsWellFormed | Interactive_Map/GetCountryPolygons/get_countries.py:68-71 | If every stored region has more than two vertices before a key, the same holds after it. |
| Authoring.ShortPolygonIgnored | Interactive_Map/GetCountryPolygons/get_countries.py:68 | With two or fewer points clicked, the commit key leaves the store, the polygon, the count and the file unchanged. |
| Authoring.RunKeepsInvariant | Interactive_Map/GetCountryPolygons/get_countries.py:35-86 | Over any sequence of clicks and keys, stored regions keep more than two vertices. The store never grows past the loaded regions plus the commits made. |
| Authoring.LoadedSessionKeepsInvariant | Interactive_Map/GetCountryPolygons/get_countries.py:22-86 | A session started from a successfully loaded, well-formed store keeps its regions well formed over any clicks and keys. It never holds more than the loaded regions plus the commits made. |
| Authoring.FingertipRegions | Interactive_Map/GetCountryPolygons/get_countries.py:108-121 | Only the first hand's warped tip is hit-tested, and no hand means no report. Every reported region is stored and contains that tip. |
| Calibration.Cleared | Interactive_Map/GetCountryPolygons/get_map.py:9-10 | The program starts with four slots at the origin and a counter of zero. |
| Calibration.Record | Interactive_Map/GetCountryPolygons/get_map.py:13-17 | Below four, a click fills the slot at the counter, raises the counter by one and leaves every other slot unchanged. At four the click is ignored. The counter stays within 0..4. |
| Calibration.Reset | Interactive_Map/GetCountryPolygons/get_map.py:64-67 | Reset sets the counter to zero and all four slots to (0, 0). |
| Calibration.DestinationCorners | Interactive_Map/GetCountryPolygons/get_map.py:21-23 | The destination corners come in click order TL, TR, BL, BR. The first two share the top edge, the first and third share the left edge, and the last is (w, h). |
| Calibration.Frame | Interactive_Map/GetCountryPolygons/get_map.py:44-59 | The recorded points are marked. Below four points only the camera image is shown and the file is untouched. At four, click i is warped to corner i and the four points are saved. |
| Calibration.FrameAfterRun | Interactive_Map/GetCountryPolygons/get_map.py:13-67 | After any clicks and resets, the image is warped exactly when four clicks were made since the last reset. Click i of those is then sent to corner i in the order TL, TR, BL, BR, and exactly those four are saved. Before that the camera image is shown and the file is untouched. |
| Calibration.Run | Interactive_Map/GetCountryPolygons/get_map.py:15 | Every reachable state has four slots and a counter within 0..4. |
| Calibration.RunRecordsFirstClicks | Interactive_Map/GetCountryPolygons/get_map.py:13-67 | After any clicks and resets, the counter is the number of clicks since the last reset, capped at four. The filled slots hold the first of those clicks in order, and the rest are at the origin. |
| Calibration.FourCornersScenario | Interactive_Map/GetCountryPolygons/get_map.py:15-17 | Four clicks from a cleared state fill the slots in click order, and a fifth click changes nothing. |
| Flight.SpeedFactor | Interactive_Map/GetCountryPolygons/flight_info_backend.py:31-32 | For latitudes in [-90, 90] the speed factor lies in [0.8, 1]. It is 1 exactly at the equator and 0.8 exactly when both endpoints are at a pole. |
| Flight.EstimateFlightTime | Interactive_Map/GetCountryPolygons/flight_info_backend.py:29-36 | Zero distance takes exactly 0.5 h, and a positive distance takes longer. For d >= 0 the time lies between d/800 + 0.5 and d/640 + 0.5. |
| Flight.FlightTimeSymmetric | Interactive_Map/GetCountryPolygons/flight_info_backend.py:31 | Swapping the two latitudes leaves the estimate unchanged. |
| Flight.FlightTimeMonotone | Interactive_Map/GetCountryPolygons/flight_info_backend.py:35 | Between the same latitudes, a longer distance never takes less time. |
| Flight.CountryCoordinates | Interactive_Map/GetCountryPolygons/flight_info_backend.py:9-22 | A cached name returns its cached coordinates with the cache unchanged. Otherwise the geocoder's answer is returned. Only a successful answer is added to the cache, and a failure leaves it unchanged. |
| Flight.CacheTransparent | Interactive_Map/GetCountryPolygons/flight_info_backend.py:9-22 | If the cache agrees with the geocoder, a lookup returns what the geocoder would. The cache keeps agreeing and never loses entries. |
| Flight.FlightInfo | Interactive_Map/GetCountryPolygons/flight_info_backend.py:39-54 | Both names are looked up in order. There is no record exactly when either lookup fails. A record has from = country1 and to = country2, and carries the estimated time for the distance between the two coordinates. |
| Flight.FlightInfoExact | Interactive_Map/GetCountryPolygons/flight_info_backend.py:39-54 | With an agreeing cache, there is no record if and only if either name fails to geocode. Otherwise the record is built from the geocoded coordinates. The second name is cached even if the first failed. |
| Detection.FingerLocations | Interactive_Map/GetCountryPolygons/front_end_logic.py:37-46 | At most two tips are produced. Tip i is the warped tip of hand i, in the detector's order. |
| Detection.ExtraHandsIgnored | Interactive_Map/GetCountryPolygons/front_end_logic.py:37-46 | Once two hands are seen, further hands change neither the tips nor the names detected for the frame. |
| Detection.DetectBound | Interactive_Map/GetCountryPolygons/front_end_logic.py:51-55 | A frame with t tips over a store of s regions reports at most t × s matches. |
| Detection.DetectAppend | Interactive_Map/GetCountryPolygons/front_end_logic.py:51-55 | The detected list is a concatenation over tips in order: detecting over two groups of tips gives each group's list, joined. |
| Detection.DetectSound | Interactive_Map/GetCountryPolygons/front_end_logic.py:51-55 | Every detected entry is a stored region that contains one of the tips. |
| Detection.DetectComplete | Interactive_Map/GetCountryPolygons/front_end_logic.py:51-55 | Every stored region that contains one of the tips is detected. |
| Detection.DetectExact | Interactive_Map/GetCountryPolygons/front_end_logic.py:51-55 | A region is detected if and only if it is stored and some tip lies inside it or on its boundary. |
| Detection.MatchTip | Interactive_Map/GetCountryPolygons/front_end_logic.py:52-55 | For one tip, the loop fills and names the containing regions in store order. |
| Detection.CreateOverlayImage | Interactive_Map/GetCountryPolygons/front_end_logic.py:49-58 | Names and fills come in (tip, store) order, one per containing pair. A line joining the two tips is drawn last, and only when there are exactly two tips. |
| Detection.AddInfoBox | Interactive_Map/GetCountryPolygons/front_end_logic.py:61-64 | With no flight information the layer comes back unchanged. Otherwise exactly one info box is added. |
| Detection.ProcessFrame | Interactive_Map/GetCountryPolygons/front_end_logic.py:99-114 | With no hand the output is the unmodified camera frame. Otherwise the overlay holds the fills and, with two or more hands, the line. The info box is requested, and the cache can change, exactly when two names were detected. |
| Detection.TwoCountriesScenario | Interactive_Map/GetCountryPolygons/front_end_logic.py:109-110 | Two tips, each inside exactly one of two regions, give the two names in tip order. By `Detection.ProcessFrame`, a frame whose detected names are exactly two requests the info box for them. |
| Detection.OneTipTwoRegions | Interactive_Map/GetCountryPolygons/front_end_logic.py:109-110 | One tip inside two overlapping regions gives two names, which is enough to request the info box. |
| Detection.SameRegionTwice | Interactive_Map/GetCountryPolygons/front_end_logic.py:109-110 | Two tips in one region give its name twice, because distinctness is not checked. |
| Detection.OverlapExample | Interactive_Map/GetCountryPolygons/front_end_logic.py:51-53 | Overlapping regions occur: one tip lies inside two different squares. |
| Detection.SquareInterior | Interactive_Map/GetCountryPolygons/front_end_logic.py:53 | Every point strictly inside an axis-aligned square is contained. |
| Detection.SquareExterior | Interactive_Map/GetCountryPolygons/front_end_logic.py:53 | A point beyond any side of an axis-aligned square is not contained. |
| Detection.TestlandScenario | Interactive_Map/GetCountryPolygons/front_end_logic.py:53 | With the square (200,200)-(600,600), the tip (400, 400) is inside and the tip (700, 700) is not. |
| Detection.InverseWarpCorners | Interactive_Map/GetCountryPolygons/front_end_logic.py:21-25 | The back-projection corners agree with the forward warp's destination corners at the origin only. |

## Left out

- Webcam capture, `imshow`/`waitKey` loops, window and mouse-callback registration, and the `input()` prompt are left out as I/O. The typed name is a parameter of the commit key, and each frame's key is an input.
- OpenCV drawing and blending are left out as foreign image operations on pixel buffers. This covers `fillPoly`, `polylines`, `line`, `circle`, `rectangle`, `putText` and `addWeighted`. The region fills, the line joining two tips and the info box are recorded as a list of shapes, and blending is the `Composed` output. The fingertip markers drawn in place into the camera frame and the warped map (front_end_logic.py:42-44) are not recorded.
- `getPerspectiveTransform`, `warpPerspective`, `perspectiveTransform` and `warp_single_point`, with the `int` truncation of warped tips, are left out as floating-point projective math on a library-computed matrix. The camera-to-map mapping is the function parameter `warp`, which yields integer points.
- `HandDetector` is an external tracker. Only its output is modelled, as the sequence of index-fingertip positions in its hand order.
- The Nominatim HTTP request, JSON parsing and `time.sleep(1)` are network and timing. They become the `geocode` parameter.
- Flight.CountryCoordinates: a request that raises is not modelled. `requests.get` or `response.json()` can raise, for example on a connection error or a reply that is not JSON. Nothing in `get_flight_info`, `add_info_box` or the main loop catches it, so in the source the program ends. In the model, `geocode` answers only `None` or `Some`, so every failure becomes "no flight information".
- `geopy`'s geodesic distance is foreign numerics. It becomes the `distance` parameter.
- Pickle serialisation is an encoding format. The countries file is the abstract `StoreFile`, and the calibration file is an optional list of four points.
- Regions.Centroid: it uses exact integer sums, not the source's `float32` arithmetic. It agrees with the source while sums stay below 2^24. Like the source, it needs a non-empty polygon; the source raises `IndexError` at get_countries.py:46 on an empty one.
- Flight.EstimateFlightTime: latitudes are restricted to [-90, 90], as a geocoder reports them. Outside that range the source could divide by zero.
- Flight.FlightInfo: the record carries the exact distance and time, not the source's values rounded to two decimals with `round`.
- Rendering the info box text (`front_end_logic.py` lines 66-83) is left out. The model records only that a box carrying the flight information was added.
- The calibration file's path and the fact that it is rewritten on every complete frame are left out. The model records only the points saved.
- Loading the calibration and countries files at the top of `front_end_logic.py`, and the calibration file `map.p` at get_countries.py:16-17, has no error handling. A missing or unreadable file ends the program there. The model takes the loaded store and calibration as given.
