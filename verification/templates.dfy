/** The fixed template catalogue and the two document replacements that
    follow a background decode: the template layout merge and the
    re-centring after a custom upload. */
module Templates {
  import opened Wrappers
  import opened Document

  /** A catalogue entry: canvas size, background image reference, and a
      per-element-id patch of layout fields. */
  datatype Template = Template(
    id: string,
    width: int,
    height: int,
    background: Option<string>,
    layout: Option<map<string, Patch>>)

  /** The template whose choice keeps the layout and accepts uploads. */
  const CustomId: string := "custom"

  function LayoutEntry(x: real, y: real, size: int, color: string, stroke: bool,
                       strokeColor: string, strokeWidth: int): Patch {
    [SetX(x), SetY(y), SetSize(size), SetColor(color), SetStroke(stroke),
     SetStrokeColor(strokeColor), SetStrokeWidth(strokeWidth)]
  }

  /** The title entry: no outline colour or width, but an `align` key. */
  function TitleEntry(x: real, y: real, size: int): Patch {
    [SetX(x), SetY(y), SetSize(size), SetColor("#333333"), SetAlign("center"), SetStroke(false)]
  }

  const A4: Template := Template("a4_land", 3508, 2480, Some("./a4.png"), Some(map[
    "t1" := TitleEntry(1600.0, 1350.0, 190),
    "p1" := LayoutEntry(2900.0, 1100.0, 150, "#ffffff", true, "#000000", 8),
    "p2" := LayoutEntry(2850.0, 1550.0, 240, "#FEFB41", true, "#000000", 12)]))

  const A5: Template := Template("a5_land", 2480, 1748, Some("./a5.png"), Some(map[
    "t1" := TitleEntry(1100.0, 950.0, 140),
    "p1" := LayoutEntry(2050.0, 780.0, 110, "#ffffff", true, "#000000", 6),
    "p2" := LayoutEntry(2000.0, 1100.0, 170, "#FEFB41", true, "#000000", 10)]))

  const Shelf: Template := Template("shelf", 1772, 591, Some("./shelf.png"), Some(map[
    "t1" := TitleEntry(800.0, 320.0, 100),
    "p1" := LayoutEntry(1450.0, 250.0, 60, "#ffffff", true, "#000000", 4),
    "p2" := LayoutEntry(1420.0, 380.0, 110, "#FEFB41", true, "#000000", 6)]))

  const Custom: Template := Template(CustomId, 1080, 1080, None, None)

  /** `TEMPLATES`, in the order the picker lists them. */
  const Catalogue: seq<Template> := [A4, A5, Shelf, Custom]

  /** `TEMPLATES.find(t => t.id === templateId)`. */
  function Find(id: string): (r: Option<Template>)
    ensures r.Some? <==> exists i :: 0 <= i < |Catalogue| && Catalogue[i].id == id
    ensures r.Some? ==> r.value in Catalogue && r.value.id == id
  {
    FindIn(Catalogue, id)
  }

  function FindIn(ts: seq<Template>, id: string): (r: Option<Template>)
    ensures r.Some? <==> exists i :: 0 <= i < |ts| && ts[i].id == id
    ensures r.Some? ==> r.value in ts && r.value.id == id
  {
    if |ts| == 0 then None
    else if ts[0].id == id then Some(ts[0])
    else
      var r := FindIn(ts[1..], id);
      assert forall i :: 1 <= i < |ts| ==> ts[i] == ts[1..][i - 1];
      r
  }

  /** Each id names its own catalogue entry. */
  lemma FindEach()
    ensures Find("a4_land") == Some(A4)
    ensures Find("a5_land") == Some(A5)
    ensures Find("shelf") == Some(Shelf)
    ensures Find(CustomId) == Some(Custom)
  {
    var c := Catalogue;
    assert c[1..] == [A5, Shelf, Custom] && c[2..] == [Shelf, Custom] && c[3..] == [Custom];
    assert FindIn([Custom], CustomId) == Some(Custom);
    assert FindIn([Shelf, Custom], "shelf") == Some(Shelf);
    assert FindIn([A5, Shelf, Custom], "a5_land") == Some(A5);
  }

  /** No other id names a template. */
  lemma FindOnlyCatalogue(id: string)
    requires id != "a4_land" && id != "a5_land" && id != "shelf" && id != CustomId
    ensures Find(id) == None
  {
    assert Catalogue == [A4, A5, Shelf, Custom];
  }

  /** The catalogue's shape: positive sizes, and every template except
      `custom` has both a background and a layout; no patch writes an id. */
  predicate WellFormed(t: Template) {
    && t.width > 0 && t.height > 0
    && (t.id == CustomId <==> t.background.None?)
    && (t.background.Some? <==> t.layout.Some?)
    && KeepsIds(t)
  }

  /** No entry of the layout writes an element's id. */
  predicate KeepsIds(t: Template) {
    t.layout.Some? ==> forall k :: k in t.layout.value ==> Id !in Written(t.layout.value[k])
  }

  lemma CatalogueWellFormed()
    ensures forall t :: t in Catalogue ==> WellFormed(t)
    ensures Find(CustomId).Some?
  {
    forall t | t in Catalogue ensures WellFormed(t) {
      if t.layout.Some? {
        forall k | k in t.layout.value ensures Id !in Written(t.layout.value[k]) {
          var p := t.layout.value[k];
          assert forall i :: 0 <= i < |p| ==> FieldOf(p[i]) != Id;
        }
      }
    }
    assert Catalogue[3] == Custom;
  }

  /** The image-loaded branch of `handleSelectTemplate`: every element whose
      id the layout lists gets that entry spread over it, the others stay as
      they are, and the canvas takes the template's size. Without a layout
      the document is unchanged. */
  function ApplyLayout(c: Config, t: Template): (r: Config)
    ensures t.layout.None? ==> r == c
    ensures t.layout.Some? ==> r.width == t.width && r.height == t.height
    ensures |r.elements| == |c.elements|
    ensures KeepsIds(t) ==> SameIds(c.elements, r.elements)
    ensures forall i, f :: 0 <= i < |c.elements| && t.layout.Some? ==>
      Get(r.elements[i], f) ==
        if c.elements[i].id in t.layout.value
        then PatchValue(t.layout.value[c.elements[i].id], f).GetOr(Get(c.elements[i], f))
        else Get(c.elements[i], f)
  {
    match t.layout
    case None => c
    case Some(layout) =>
      var es := c.elements;
      var merged := seq(|es|, i requires 0 <= i < |es| =>
        if es[i].id in layout then Merge(es[i], layout[es[i].id]) else es[i]);
      assert KeepsIds(t) ==> forall i :: 0 <= i < |es| && es[i].id in layout ==> merged[i].id == es[i].id by {
        if KeepsIds(t) {
          forall i | 0 <= i < |es| && es[i].id in layout ensures merged[i].id == es[i].id {
            WrittenHasValue(layout[es[i].id], Id);
          }
        }
      }
      Config(t.width, t.height, merged)
  }

  /** The `custom` branch of the upload: every element moves to the centre
      of the `w` x `h` image, which becomes the canvas size; nothing else
      about any element changes. */
  function Recentre(c: Config, w: int, h: int): (r: Config)
    ensures r.width == w && r.height == h
    ensures SameIds(c.elements, r.elements)
    ensures forall i :: 0 <= i < |c.elements| ==>
      r.elements[i].x == w as real / 2.0 && r.elements[i].y == h as real / 2.0
    ensures forall i, f :: 0 <= i < |c.elements| && f != X && f != Y ==>
      Get(r.elements[i], f) == Get(c.elements[i], f)
  {
    var es := c.elements;
    var cx, cy := w as real / 2.0, h as real / 2.0;
    var moved := seq(|es|, i requires 0 <= i < |es| => Merge(es[i], MoveTo(cx, cy)));
    assert forall i :: 0 <= i < |es| ==> moved[i].id == es[i].id && moved[i].x == cx && moved[i].y == cy by {
      forall i | 0 <= i < |es| ensures moved[i].id == es[i].id && moved[i].x == cx && moved[i].y == cy {
        MoveToWrites(cx, cy);
        assert Get(moved[i], Id) == Get(es[i], Id);
        assert Get(moved[i], X) == Num(cx) && Get(moved[i], Y) == Num(cy);
      }
    }
    MoveToWrites(cx, cy);
    Config(w, h, moved)
  }
}
