/**
 * The custom DOM overlays: an info window (WinInfoMarkerOverlay) and a small
 * circle (CircleMarkerOverlay), both built on BaseDOMOverlay, whose updateDOM
 * centres the element on the overlay's map position.
 *
 * The SDK drives an overlay through hooks: onInit captures the options,
 * createDOM builds the element, updateDOM repositions it after the map moves.
 * Here a constructor stands for onInit followed by createDOM.
 */
module DomOverlay {
  import opened Common

  /** An element's inline style: CSS property name to value. */
  type Style = map<string, string>

  const Visible: string := "visible"
  const Hidden: string := "hidden"

  // ---------------------------------------------------------------------------
  // setVisible

  /**
   * The argument of setVisible as JavaScript sees it: `undefined`, `null`, or
   * any other value, kept only by its truthiness.
   */
  datatype VisibleArg = Undefined | Null | Given(truthy: bool)

  predicate Truthy(v: VisibleArg) {
    v.Given? && v.truthy
  }

  /** `v == undefined` with loose equality holds for undefined and for null. */
  predicate LooselyUndefined(v: VisibleArg) {
    v.Undefined? || v.Null?
  }

  /** The visibility setVisible writes: only a defined, non-null, falsy argument hides. */
  function VisibilityFor(v: VisibleArg): (r: string)
    ensures r == Hidden <==> v == Given(false)
    ensures r == Visible <==> v != Given(false)
  {
    if Truthy(v) || LooselyUndefined(v) then Visible else Hidden
  }

  /** The element style after setVisible(v). */
  function SetVisibleStyle(style: Style, v: VisibleArg): (r: Style)
    ensures r.Keys == style.Keys + {"visibility"}
    ensures r["visibility"] == VisibilityFor(v)
    ensures forall k :: k in style && k != "visibility" ==> r[k] == style[k]
  {
    style["visibility" := VisibilityFor(v)]
  }

  /** Only the last setVisible call matters; in particular a repeated call changes nothing. */
  lemma SetVisibleLastWins(style: Style, v: VisibleArg, w: VisibleArg)
    ensures SetVisibleStyle(SetVisibleStyle(style, v), w) == SetVisibleStyle(style, w)
    ensures SetVisibleStyle(SetVisibleStyle(style, v), v) == SetVisibleStyle(style, v)
  {
  }

  // ---------------------------------------------------------------------------
  // getWinDOMWidth: `length * factor + 'px'`

  predicate IsDigit(c: char) {
    '0' <= c <= '9'
  }

  predicate AllDigits(s: string) {
    forall i :: 0 <= i < |s| ==> IsDigit(s[i])
  }

  function DigitChar(d: nat): (c: char)
    requires d < 10
    ensures IsDigit(c)
  {
    ('0' as int + d) as char
  }

  function DigitValue(c: char): (d: nat)
    requires IsDigit(c)
    ensures d < 10
  {
    c as int - '0' as int
  }

  /**
   * The decimal text of a non-negative integer, as JavaScript converts a
   * number to a string when it is concatenated with 'px'.
   */
  function DecimalString(n: nat): (s: string)
    ensures |s| >= 1 && AllDigits(s)
    ensures n > 0 ==> s[0] != '0'
  {
    if n < 10 then [DigitChar(n)] else DecimalString(n / 10) + [DigitChar(n % 10)]
  }

  /** The value of a string of decimal digits. */
  function DecimalValue(s: string): nat
    requires AllDigits(s)
  {
    if s == [] then 0 else 10 * DecimalValue(s[..|s| - 1]) + DigitValue(s[|s| - 1])
  }

  lemma {:induction false} DecimalRoundTrip(n: nat)
    ensures DecimalValue(DecimalString(n)) == n
  {
    if n >= 10 {
      var s := DecimalString(n);
      assert s[..|s| - 1] == DecimalString(n / 10);
      DecimalRoundTrip(n / 10);
    }
  }

  /** A CSS pixel length: the number followed by 'px'. */
  function Px(n: nat): string {
    DecimalString(n) + "px"
  }

  /** Reads back the number of a pixel length written by Px. */
  function ParsePx(s: string): Option<nat> {
    if |s| >= 3 && s[|s| - 2..] == "px" && AllDigits(s[..|s| - 2])
    then Some(DecimalValue(s[..|s| - 2]))
    else None
  }

  lemma PxRoundTrip(n: nat)
    ensures ParsePx(Px(n)) == Some(n)
  {
    var s := Px(n);
    assert s[..|s| - 2] == DecimalString(n);
    assert s[|s| - 2..] == "px";
    DecimalRoundTrip(n);
  }

  /** The info window's width: 8 pixels per character for a car, 15 for a station, 12 otherwise. */
  function WinDOMWidth(kind: string, content: string): string {
    if kind == "car" then Px(|content| * 8)
    else if kind == "station" then Px(|content| * 15)
    else Px(|content| * 12)
  }

  lemma WinDOMWidthByType(kind: string, content: string)
    ensures kind == "car" ==> ParsePx(WinDOMWidth(kind, content)) == Some(|content| * 8)
    ensures kind == "station" ==> ParsePx(WinDOMWidth(kind, content)) == Some(|content| * 15)
    ensures kind != "car" && kind != "station" ==>
              ParsePx(WinDOMWidth(kind, content)) == Some(|content| * 12)
  {
    if kind == "car" {
      PxRoundTrip(|content| * 8);
    } else if kind == "station" {
      PxRoundTrip(|content| * 15);
    } else {
      PxRoundTrip(|content| * 12);
    }
  }

  /** A longer text never gives a narrower info window of the same type. */
  lemma WinDOMWidthMonotone(kind: string, content: string, longer: string)
    requires |content| <= |longer|
    ensures ParsePx(WinDOMWidth(kind, content)).Some?
    ensures ParsePx(WinDOMWidth(kind, longer)).Some?
    ensures ParsePx(WinDOMWidth(kind, content)).value <= ParsePx(WinDOMWidth(kind, longer)).value
  {
    WinDOMWidthByType(kind, content);
    WinDOMWidthByType(kind, longer);
  }

  // ---------------------------------------------------------------------------
  // createDOM: the default style, then the caller's entries on top

  /**
   * The info window's element style right after createDOM. Of the defaults
   * only width and visibility are kept here; the caller's style entries are
   * applied after the defaults, so they win.
   */
  function CreatedStyle(kind: string, content: string, style: Style): (r: Style)
    ensures r.Keys == style.Keys + {"width", "visibility"}
    ensures forall k :: k in style ==> r[k] == style[k]
    ensures "visibility" !in style ==> r["visibility"] == Hidden
    ensures "width" !in style ==> r["width"] == WinDOMWidth(kind, content)
  {
    map["width" := WinDOMWidth(kind, content), "visibility" := Hidden] + style
  }

  // ---------------------------------------------------------------------------
  // updateDOM: centre the element on the projected position

  /** A point in the map container, in pixels. */
  datatype Pixel = Pixel(x: real, y: real)

  /** The element's `translate(left, top)` transform, in pixels. */
  datatype Translate = Translate(left: real, top: real)

  /** The map an overlay is attached to; only its projection to container pixels is used. */
  datatype MapView = MapView(projectToContainer: Option<LatLng> -> Pixel)

  /** The translation that puts the middle of a width × height element on the pixel. */
  function CentredTranslate(pixel: Pixel, width: real, height: real): (t: Translate)
    ensures t.left + width / 2.0 == pixel.x
    ensures t.top + height / 2.0 == pixel.y
  {
    Translate(pixel.x - width / 2.0, pixel.y - height / 2.0)
  }

  // ---------------------------------------------------------------------------
  // The overlay objects

  /** `options.data` of an info window. */
  datatype WinInfoData = WinInfoData(kind: string, content: string, style: Option<Style>)

  /**
   * The info window. Its element's size (clientWidth, clientHeight) comes from
   * the browser's layout and is taken as given.
   */
  class WinInfoMarkerOverlay {
    var position: Option<LatLng>
    var kind: string
    var content: string
    var style: Style
    var targetMap: Option<MapView>
    var clientWidth: real
    var clientHeight: real
    var domStyle: Style
    var transform: Option<Translate>

    /** onInit followed by createDOM. */
    constructor (position: Option<LatLng>, data: WinInfoData, targetMap: Option<MapView>,
                 clientWidth: real, clientHeight: real)
      ensures this.position == position && kind == data.kind && content == data.content
      ensures style == data.style.GetOr(map[])
      ensures this.targetMap == targetMap
      ensures this.clientWidth == clientWidth && this.clientHeight == clientHeight
      ensures domStyle == CreatedStyle(data.kind, data.content, style)
      ensures "visibility" !in style ==> domStyle["visibility"] == Hidden
      ensures transform == None
    {
      // onInit
      this.position := position;
      kind := data.kind;
      content := data.content;
      var userStyle := if data.style.Some? then data.style.value else map[];
      style := userStyle;
      // createDOM
      this.targetMap := targetMap;
      this.clientWidth := clientWidth;
      this.clientHeight := clientHeight;
      domStyle := CreatedStyle(data.kind, data.content, userStyle);
      transform := None;
    }

    method SetVisible(visible: VisibleArg)
      modifies this`domStyle
      ensures domStyle == SetVisibleStyle(old(domStyle), visible)
      ensures domStyle["visibility"] == (if visible == Given(false) then Hidden else Visible)
    {
      domStyle := domStyle["visibility" := VisibilityFor(visible)];
    }

    method UpdateDOM()
      modifies this`transform
      ensures targetMap.None? ==> transform == old(transform)
      ensures targetMap.Some? ==>
                transform == Some(CentredTranslate(targetMap.value.projectToContainer(position),
                                                   clientWidth, clientHeight))
    {
      if targetMap.None? {
        return;
      }
      var pixel := targetMap.value.projectToContainer(position);
      transform := Some(CentredTranslate(pixel, clientWidth, clientHeight));
    }
  }

  /** The circle marker: BaseDOMOverlay's onInit and updateDOM; its own part is CSS and events. */
  class CircleMarkerOverlay {
    var position: Option<LatLng>
    var targetMap: Option<MapView>
    var clientWidth: real
    var clientHeight: real
    var transform: Option<Translate>

    constructor (position: Option<LatLng>, targetMap: Option<MapView>,
                 clientWidth: real, clientHeight: real)
      ensures this.position == position && this.targetMap == targetMap
      ensures this.clientWidth == clientWidth && this.clientHeight == clientHeight
      ensures transform == None
    {
      this.position := position;
      this.targetMap := targetMap;
      this.clientWidth := clientWidth;
      this.clientHeight := clientHeight;
      transform := None;
    }

    method UpdateDOM()
      modifies this`transform
      ensures targetMap.None? ==> transform == old(transform)
      ensures targetMap.Some? ==>
                transform == Some(CentredTranslate(targetMap.value.projectToContainer(position),
                                                   clientWidth, clientHeight))
    {
      if targetMap.None? {
        return;
      }
      var pixel := targetMap.value.projectToContainer(position);
      transform := Some(CentredTranslate(pixel, clientWidth, clientHeight));
    }
  }
}
