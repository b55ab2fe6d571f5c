# vectoxy coordinate extraction, modelled in Dafny

vectoxy reads an SVG drawing and turns it into two parallel coordinate
lists, `x_coords` and `y_coords`. It then rescales each list onto
[-1, 1]. This project models the two functions that do that work, both
in `vectoxy-test1.py`:

- `extract_coordinates_from_svg` walks the parsed document in four
  passes, one per element kind, appending points as it goes:
  - `<path>`: every segment is sampled at `flatten_tolerance` evenly
    spaced parameters;
  - `<rect>`: the closed five-point outline;
  - `<circle>`/`<ellipse>`: `flatten_tolerance` angles from 0 to 2π;
  - `<polygon>`/`<polyline>`: the `x,y` pairs of the `points` attribute.
- `normalize_coordinates` maps each list affinely so that its minimum
  goes to -1 and its maximum to 1.

Files:

- `wrappers.dfy` holds `Option`/`Result` and the exceptions the code can raise.
- `strings.dfy` holds the Python string operations the polygon parser
  uses: `str.strip()`, `str.split()` and `str.split(",")`, with
  `str.isspace` as Python defines it.
- `shapes.dfy` holds one element's points:
  - `np.linspace`;
  - segment sampling;
  - the rectangle outline;
  - ellipse sampling;
  - the polygon `points` parser, with Python's evaluation order: every
    token is converted by `float` before any tuple is unpacked.
- `extraction.dfy` holds the document walker:
  - `Group`, `PolyGroup` and `Extracted` are value-level definitions of
    what each pass produces;
  - methods with loops (`PathPass`, `RectPass`, `EllipsePass`,
    `PolyPass`, `ExtractCoordinates`) follow the source's loops, grow the
    two coordinate lists, and are proved against those definitions.
- `extraction_facts.dfy` holds properties of the walker's output:
  - its length;
  - grouping by element kind;
  - ignored elements;
  - when the polygon pass fails.
- `normalization.dfy` holds `normalize_coordinates` and its properties:
  - range;
  - extremes;
  - order;
  - round trip;
  - idempotence;
  - the degenerate and empty cases.

Code the model cannot see is passed in as parameters (`Extraction.Foreign`):

- the path library's segment type and `segment.point`;
- `np.pi`, `np.cos` and `np.sin`;
- `float()` on text, which returns `None` where Python raises.

Numbers are mathematical reals.

Notable behaviours of the code, which the model keeps:

- Every path segment is sampled, straight lines included.
- `np.linspace(0, 2π, n)` includes 2π, so an ellipse's last sample is
  taken at angle 2π. Over the reals, with periodic cos and sin, it
  repeats the first sample (`Shapes.EllipseClosed`). In floating point the
  two may differ by rounding.
- `flatten_tolerance` is not clamped. A value of 1 gives one point per
  segment or ellipse, and 0 gives none.
- Points are grouped by element kind, not by document position: all
  paths come first, then all rectangles, then all ellipses, then all
  polygons (`ExtractionFacts.PathsBeforeRects`).
- One malformed `points` attribute aborts the whole extraction.
- A list whose values are all equal normalises to NaN in every place
  (`Normalization.Axis.AllNaN`). It does not become 0.
- An empty drawing is not an error during extraction. It fails later,
  when the minimum of an empty array is taken (`Errors.ZeroSizeArray`).

## Model

| member | source | states |
|---|---|---|
| Strings.StripLeft | vectoxy-test1.py:48 | the result is a suffix of the input, does not start with whitespace, and only whitespace was removed |
| Strings.StripRight | vectoxy-test1.py:48 | the result is a prefix of the input, does not end with whitespace, and only whitespace was removed |
| Strings.Strip | vectoxy-test1.py:48 | `str.strip()`: the result neither starts nor ends with whitespace |
| Strings.Words | vectoxy-test1.py:49 | `str.split()` yields only non-empty words without whitespace |
| Strings.WordsKeepText | vectoxy-test1.py:49 | concatenating the words gives back every non-whitespace character of the text, in order |
| Strings.WordsUnwords | vectoxy-test1.py:49 | splitting words joined by single spaces gives back the words |
| Strings.WordsStrip | vectoxy-test1.py:48-49 | `s.strip().split() == s.split()`: the strip before the split changes nothing |
| Strings.Split | vectoxy-test1.py:49 | `str.split(",")` yields at least one piece, and no piece contains the separator |
| Strings.JoinSplit | vectoxy-test1.py:49 | joining the pieces with the separator restores the text; there is one more piece than there are separators |
| Strings.SplitJoin | vectoxy-test1.py:49 | splitting pieces joined by the separator gives back the pieces |
| Strings.SplitAtLeastTwo | vectoxy-test1.py:49 | a token that contains a comma splits into at least two fields |
| Shapes.Linspace | vectoxy-test1.py:19 | `np.linspace`: `num` values, the first is `start`, and the last is `stop` when `num >= 2` |
| Shapes.LinspaceStep | vectoxy-test1.py:19 | neighbouring values are `(stop - start) / (num - 1)` apart |
| Shapes.LinspaceBetween | vectoxy-test1.py:19 | for `start <= stop` the values are non-decreasing and lie within `[start, stop]` |
| Shapes.SegmentPoints | vectoxy-test1.py:19 | `segment.point(np.linspace(0, 1, n))`: `n` points, from the segment's start to its end |
| Shapes.RectOutline | vectoxy-test1.py:29-31 | five points: start at `(x, y)`, walk the width, the height and back, and close on the start |
| Shapes.RectOutlineBox | vectoxy-test1.py:29-31 | for a non-negative size every point lies on the box, and all four corners are visited |
| Shapes.EllipsePoints | vectoxy-test1.py:42-44 | `n` points; the first is at angle 0 and the last at angle 2π |
| Shapes.EllipseAt | vectoxy-test1.py:43-44 | the point at angle `a` is offset from `(cx, cy)` by `rx * cos(a)` horizontally and `ry * sin(a)` vertically |
| Shapes.EllipseAtOnCurve | vectoxy-test1.py:43-44 | where cos² + sin² = 1 at `a`, the point satisfies the ellipse equation, and for equal radii it lies at distance `|rx|` from the centre |
| Shapes.EllipsePointAt | vectoxy-test1.py:42-44 | for `n >= 2` the k-th sample is the ellipse's point at angle `k * 2π / (n - 1)`; a single sample is at angle 0 |
| Shapes.EllipseClosed | vectoxy-test1.py:42 | over the reals and with cos and sin periodic, the first and last samples coincide |
| Shapes.EllipsePointsOnCurve | vectoxy-test1.py:42-44 | with cos² + sin² = 1, every sample satisfies the ellipse equation, and with equal radii every sample lies at distance `|rx|` from the centre |
| Shapes.CommaTokens | vectoxy-test1.py:49 | the kept tokens are exactly the words that contain a comma |
| Shapes.CommaTokensFilter | vectoxy-test1.py:49 | the filter keeps a single word exactly when it has a comma, and distributes over concatenation, so every comma word is kept once and in text order |
| Shapes.PointTokens | vectoxy-test1.py:48-49 | the kept tokens of `points.strip().split()` are non-empty, contain a comma and no whitespace (that the strip changes nothing is `Strings.WordsStrip`) |
| Shapes.Floats | vectoxy-test1.py:49 | `tuple(map(float, ...))`: on success one value per field; a failure is a conversion error naming one of the fields |
| Shapes.Tuples | vectoxy-test1.py:49 | the list comprehension: on success one tuple per token; it can fail only with a conversion error |
| Shapes.Pairs | vectoxy-test1.py:51-53 | the unpacking loop: on success one point per tuple; a failure is an unpacking error whose size is not 2 |
| Shapes.PolyPoints | vectoxy-test1.py:48-53 | one polygon's `points` text: on success one point per comma token; it fails only with a conversion or an unpacking error |
| Shapes.TokenPoints | vectoxy-test1.py:49-53 | comma tokens converted and then unpacked: on success one point per token; it fails only with a conversion error or an unpacking error whose size is not 2 |
| Shapes.FloatsSpec | vectoxy-test1.py:49 | `map(float, ...)` succeeds exactly when every field converts, keeping values in order; otherwise it fails on the first field that does not convert |
| Shapes.TuplesSpec | vectoxy-test1.py:49 | the list comprehension gives one tuple per token exactly when every token's fields convert; it can only fail with a conversion error |
| Shapes.PairsSpec | vectoxy-test1.py:51-53 | unpacking succeeds exactly when every tuple is a pair, giving one point per tuple; otherwise it fails on the first tuple that is not a pair, reporting its size |
| Shapes.PairsFailedPrefix | vectoxy-test1.py:51-53 | once a prefix fails to unpack, the whole loop fails with that error |
| Shapes.TokenPointsSpec | vectoxy-test1.py:49-53 | comma tokens give points exactly when each token is two convertible numbers, one point per token, in order |
| Shapes.PolyPointsSpec | vectoxy-test1.py:48-53 | a `points` text gives points exactly when every comma token is two convertible numbers, one point per token in text order |
| Shapes.PolyPointsNeverTooFew | vectoxy-test1.py:49-53 | an unpacking error always reports more than two values, never fewer |
| Extraction.Radius | vectoxy-test1.py:39-40 | a radius is its own attribute when present, otherwise `r`, otherwise 0 |
| Extraction.Contribution | vectoxy-test1.py:15-44 | a path gives `n` points per segment, a rectangle its five-point outline starting and ending at `(x, y)` with missing values 0, an ellipse `n` points; elements of another kind give nothing to the pass |
| Extraction.Group | vectoxy-test1.py:15-44 | one of the path, rectangle or ellipse passes as a value: the rectangle pass is a whole number of five-point outlines |
| Extraction.PolyContribution | vectoxy-test1.py:47-49 | an element that is not a polygon or polyline, or one without a `points` attribute (read as `""`), contributes nothing and cannot fail; a failure is a conversion or an unpacking error |
| Extraction.CollectOutcome | vectoxy-test1.py:47-53 | gathering per-element results: a failure is the failure of some element, and when every element gives nothing the result is empty |
| Extraction.PolyGroup | vectoxy-test1.py:47-53 | the polygon pass as a value: it fails only with a conversion or an unpacking error, and a document without `points` text gives no points |
| Extraction.Extracted | vectoxy-test1.py:7-55 | `extract_coordinates_from_svg` as a value: it fails exactly when the polygon pass fails, and otherwise the path points come first |
| Extraction.SegmentsPoints | vectoxy-test1.py:18-19 | a path's segments give `n` points each |
| Extraction.CollectFailedPrefix | vectoxy-test1.py:47-53 | once a polygon has failed, the whole pass fails with its error |
| Extraction.CollectStep | vectoxy-test1.py:47-53 | one more element extends the polygon pass by its points, or makes the pass fail |
| Extraction.AppendPoints | vectoxy-test1.py:32-34 | appending points to both lists keeps them in step, position by position |
| Extraction.AppendSegments | vectoxy-test1.py:18-22 | one path's segments are appended as their sampled points |
| Extraction.PathPass | vectoxy-test1.py:15-22 | the `<path>` loop appends exactly the path pass's points |
| Extraction.RectPass | vectoxy-test1.py:25-34 | the `<rect>` loop appends every rectangle's outline, with missing attributes read as 0 |
| Extraction.AppendEllipse | vectoxy-test1.py:42-44 | one ellipse's loop appends exactly its `n` samples |
| Extraction.EllipsePass | vectoxy-test1.py:37-44 | the `<circle>`/`<ellipse>` loop appends every ellipse's samples, with radii falling back to `r` and then to 0 |
| Extraction.AppendPairs | vectoxy-test1.py:51-53 | the unpacking loop appends every pair, or fails with the first mismatch |
| Extraction.AppendPoly | vectoxy-test1.py:48-53 | one polygon appends its points, or fails exactly as its `points` text does |
| Extraction.AppendContribution | vectoxy-test1.py:47-53 | one element of the polygon pass appends its points, or fails with its error |
| Extraction.PolyPass | vectoxy-test1.py:47-53 | the `<polygon>`/`<polyline>` loop succeeds exactly when the polygon pass does, appending its points, and otherwise fails with the same error |
| Extraction.ExtractCoordinates | vectoxy-test1.py:7-55 | fails exactly when the walker's definition does, with the same error; otherwise returns two equal-length lists that are the defined points split into x and y |
| ExtractionFacts.GroupLength | vectoxy-test1.py:15-44 | each path segment adds `n` points, each rectangle 5, and each circle or ellipse `n` |
| ExtractionFacts.PolyGroupLength | vectoxy-test1.py:47-53 | a successful polygon pass adds one point per comma token |
| ExtractionFacts.ExtractionLength | vectoxy-test1.py:7-55 | the output length is the sum of samples, corners and comma tokens |
| ExtractionFacts.GroupKeepsContributions | vectoxy-test1.py:15-44 | every point an element contributes reaches its pass |
| ExtractionFacts.GroupOnlyContributions | vectoxy-test1.py:15-44 | every point of a pass was contributed by some element of the document |
| ExtractionFacts.GroupAppend | vectoxy-test1.py:15-44 | a pass over two documents in a row is the pass over the first followed by the pass over the second |
| ExtractionFacts.CollectAppend | vectoxy-test1.py:47-53 | the polygon pass over two documents in a row: the first failure wins, otherwise the points concatenate |
| ExtractionFacts.CollectSpec | vectoxy-test1.py:47-53 | gathering succeeds exactly when every element does; otherwise it reports the first failing element's error |
| ExtractionFacts.PolyGroupSpec | vectoxy-test1.py:47-53 | the polygon pass succeeds exactly when every element's `points` text does; otherwise it reports the first failure |
| ExtractionFacts.OtherIgnoredByGroup | vectoxy-test1.py:15-44 | an element of another kind adds nothing to a pass, wherever it stands |
| ExtractionFacts.OtherIgnoredByPolyGroup | vectoxy-test1.py:47 | an element of another kind neither adds to nor fails the polygon pass |
| ExtractionFacts.OtherIgnored | vectoxy-test1.py:15-53 | elements the walker does not look at leave the output unchanged |
| ExtractionFacts.PathsBeforeRects | vectoxy-test1.py:14-34 | a path that follows a rectangle in the document still comes first in the output |
| ExtractionFacts.CirclePoints | vectoxy-test1.py:38-44 | a `<circle>` with only `r` gives `n` points, each at squared distance `r * r` from the centre (so exactly the centre when `r == 0`) |
| ExtractionFacts.MissingRectAttributes | vectoxy-test1.py:26-27 | a `<rect>` without attributes contributes the origin five times |
| Normalization.Min | vectoxy-test1.py:59-60 | `np.min`: a value of the list that bounds every element from below |
| Normalization.Max | vectoxy-test1.py:59-60 | `np.max`: a value of the list that bounds every element from above |
| Normalization.NormalizeAxis | vectoxy-test1.py:62-63 | the result is NaN everywhere exactly when min == max; otherwise it has one value per input |
| Normalization.Normalize | vectoxy-test1.py:57-65 | fails with the empty-array error exactly when either list is empty |
| Normalization.Remap | vectoxy-test1.py:62-63 | `2 * (x - lo) / (hi - lo) - 1`, stated as `(y + 1)(hi - lo) == 2(x - lo)` |
| Normalization.RemapBounds | vectoxy-test1.py:62-63 | a value within `[min, max]` maps into [-1, 1] |
| Normalization.RemapEnds | vectoxy-test1.py:62-63 | exactly `min` maps to -1 and exactly `max` maps to 1 |
| Normalization.RemapMonotone | vectoxy-test1.py:62-63 | the map keeps order, in both directions |
| Normalization.UnmapRemap | vectoxy-test1.py:62-63 | the map is inverted by `lo + (y + 1)(hi - lo)/2` |
| Normalization.AllNaNIffConstant | vectoxy-test1.py:62-63 | a list normalises to NaN exactly when all its values are equal |
| Normalization.NormalizedBounds | vectoxy-test1.py:62-63 | every normalised value lies in [-1, 1] |
| Normalization.NormalizedEnds | vectoxy-test1.py:62-63 | exactly the minimal values become -1 and exactly the maximal values become 1 |
| Normalization.NormalizedMonotone | vectoxy-test1.py:62-63 | the order of any two values is kept, in both directions |
| Normalization.NormalizedRoundTrip | vectoxy-test1.py:62-63 | the original list is recovered from the normalised one and the original min and max |
| Normalization.NormalizeIdempotent | vectoxy-test1.py:62-63 | normalising a normalised list changes nothing |
| Normalization.NormalizeIndependent | vectoxy-test1.py:59-63 | each list is normalised on its own: changing the other list does not change its result |
| Normalization.NormalizeResult | vectoxy-test1.py:57-65 | a successful call gives, for each list, NaN everywhere exactly when it is constant, and otherwise one value per input in [-1, 1] with exactly the minima at -1, the maxima at 1, and order kept |
| Normalization.NormalizeSquare | vectoxy-test1.py:57-65 | `[0, 10, 10]`, `[0, 0, 10]` normalise to `[-1, 1, 1]`, `[-1, -1, 1]` |

## Left out

- Reading the file and parsing the XML with BeautifulSoup are not part of
  this model. Lines 8-11 are left out. The document arrives as a sequence
  of `Extraction.Element` values in document order; `find_all` order
  within each kind is that order.
- `parse_path` is library code. Paths arrive as their parsed segments, of
  an abstract type, so a malformed `d` attribute and the exception
  `parse_path` raises for it are not modelled.
- `segment.point`, `np.pi`, `np.cos`, `np.sin` and `float()` are
  parameters. Their numeric behaviour is not modelled; the ellipse
  properties assume only what they state about cos and sin.
- `Extraction.Element`: attribute values of `<rect>`, `<circle>` and
  `<ellipse>` arrive already converted to numbers. The `ValueError` that
  `float()` raises there on non-numeric text is not modelled. Polygon
  `points` text is modelled as text, conversion errors included.
- Floating-point rounding, infinities and NaN inputs are not modelled;
  numbers are reals. A constant list's NaN output is modelled as the
  outcome `Normalization.Axis.AllNaN`, not as values.
- `Extraction.ExtractCoordinates`: `flatten_tolerance` is a natural
  number and a required argument. The default value 5 on line 7 is not
  modelled. The `ValueError` numpy raises for a negative sample count is
  not modelled.
- The final `np.array` conversion is not modelled; the lists are returned
  as sequences.
- The module-level imports, `save_to_file` and the Streamlit user
  interface are not part of this model.
