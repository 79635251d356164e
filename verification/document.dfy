/** The document model: the `config = {width, height, elements}` value that
    is drawn, snapshotted by the history and replaced by templates and
    uploads, and the element operations `updateElement`, `addElement` and
    `deleteElement`.

    Every element field is reachable through the one accessor `Get`, so that
    "only this field changed" is a statement about `Get` and not a list of
    record equalities. */
module Document {
  import opened Wrappers
  import Geometry

  /** `type: 'text'` (multi-line textarea editor) or `type: 'price'`. */
  datatype Kind = PlainText | PriceText

  datatype Element = Element(
    id: string,
    isDefault: bool,          // the "default" elements have no delete button
    kind: Kind,
    caption: string,          // `label`, the editor card heading
    text: string,
    x: real,                  // centre of the text block, document pixels
    y: real,
    size: int,                // font size in pixels
    color: string,
    font: string,
    stroke: bool,
    strokeColor: string,
    strokeWidth: int,
    strikethrough: bool,      // `isStrikethrough`; absent reads as false
    align: Option<string>     // only ever added by a template patch
  )

  /** The element's keys. */
  datatype Field =
    | Id | IsDefault | KindOf | Caption | Text | X | Y | Size | Color | Font
    | Stroke | StrokeColor | StrokeWidth | Strikethrough | Align

  /** A field's value; `Missing` is an absent key. */
  datatype Value =
    | Str(s: string) | Num(r: real) | Int(n: int) | Flag(b: bool) | OfKind(k: Kind) | Missing

  /** One `{ ...el, [field]: value }` write, for every field the program writes. */
  datatype Update =
    | SetText(text: string)
    | SetX(x: real)
    | SetY(y: real)
    | SetSize(size: int)
    | SetColor(color: string)
    | SetFont(font: string)
    | SetStroke(stroke: bool)
    | SetStrokeColor(strokeColor: string)
    | SetStrokeWidth(strokeWidth: int)
    | SetAlign(align: string)

  /** A partial element, as a template layout entry or a drag writes it:
      its updates are spread onto the element in order. */
  type Patch = seq<Update>

  datatype Config = Config(width: int, height: int, elements: seq<Element>)

  function Get(e: Element, f: Field): Value {
    match f
    case Id => Str(e.id)
    case IsDefault => Flag(e.isDefault)
    case KindOf => OfKind(e.kind)
    case Caption => Str(e.caption)
    case Text => Str(e.text)
    case X => Num(e.x)
    case Y => Num(e.y)
    case Size => Int(e.size)
    case Color => Str(e.color)
    case Font => Str(e.font)
    case Stroke => Flag(e.stroke)
    case StrokeColor => Str(e.strokeColor)
    case StrokeWidth => Int(e.strokeWidth)
    case Strikethrough => Flag(e.strikethrough)
    case Align => if e.align.Some? then Str(e.align.value) else Missing
  }

  /** Two elements are equal exactly when every field reads the same. */
  lemma Extensionality(a: Element, b: Element)
    requires forall f :: Get(a, f) == Get(b, f)
    ensures a == b
  {
    assert a.id == b.id by { assert Get(a, Id) == Get(b, Id); }
    assert a.isDefault == b.isDefault by { assert Get(a, IsDefault) == Get(b, IsDefault); }
    assert a.kind == b.kind by { assert Get(a, KindOf) == Get(b, KindOf); }
    assert a.caption == b.caption by { assert Get(a, Caption) == Get(b, Caption); }
    assert a.text == b.text by { assert Get(a, Text) == Get(b, Text); }
    assert a.x == b.x by { assert Get(a, X) == Get(b, X); }
    assert a.y == b.y by { assert Get(a, Y) == Get(b, Y); }
    assert a.size == b.size by { assert Get(a, Size) == Get(b, Size); }
    assert a.color == b.color by { assert Get(a, Color) == Get(b, Color); }
    assert a.font == b.font by { assert Get(a, Font) == Get(b, Font); }
    assert a.stroke == b.stroke by { assert Get(a, Stroke) == Get(b, Stroke); }
    assert a.strokeColor == b.strokeColor by { assert Get(a, StrokeColor) == Get(b, StrokeColor); }
    assert a.strokeWidth == b.strokeWidth by { assert Get(a, StrokeWidth) == Get(b, StrokeWidth); }
    assert a.strikethrough == b.strikethrough by { assert Get(a, Strikethrough) == Get(b, Strikethrough); }
    assert a.align == b.align by { assert Get(a, Align) == Get(b, Align); }
  }

  function FieldOf(u: Update): Field {
    match u
    case SetText(_) => Text
    case SetX(_) => X
    case SetY(_) => Y
    case SetSize(_) => Size
    case SetColor(_) => Color
    case SetFont(_) => Font
    case SetStroke(_) => Stroke
    case SetStrokeColor(_) => StrokeColor
    case SetStrokeWidth(_) => StrokeWidth
    case SetAlign(_) => Align
  }

  function ValueOf(u: Update): Value {
    match u
    case SetText(s) => Str(s)
    case SetX(r) => Num(r)
    case SetY(r) => Num(r)
    case SetSize(n) => Int(n)
    case SetColor(s) => Str(s)
    case SetFont(s) => Str(s)
    case SetStroke(b) => Flag(b)
    case SetStrokeColor(s) => Str(s)
    case SetStrokeWidth(n) => Int(n)
    case SetAlign(s) => Str(s)
  }

  /** `{ ...e, [field]: value }`: the written field reads the new value, every
      other field reads as before. */
  function Apply(e: Element, u: Update): (r: Element)
    ensures Get(r, FieldOf(u)) == ValueOf(u)
    ensures forall f :: f != FieldOf(u) ==> Get(r, f) == Get(e, f)
  {
    match u
    case SetText(s) => e.(text := s)
    case SetX(v) => e.(x := v)
    case SetY(v) => e.(y := v)
    case SetSize(n) => e.(size := n)
    case SetColor(s) => e.(color := s)
    case SetFont(s) => e.(font := s)
    case SetStroke(b) => e.(stroke := b)
    case SetStrokeColor(s) => e.(strokeColor := s)
    case SetStrokeWidth(n) => e.(strokeWidth := n)
    case SetAlign(s) => e.(align := Some(s))
  }

  /** The value a patch gives field `f`: its last write of `f`, if any. */
  function PatchValue(p: Patch, f: Field): Option<Value> {
    if |p| == 0 then None
    else if FieldOf(p[|p| - 1]) == f then Some(ValueOf(p[|p| - 1]))
    else PatchValue(p[..|p| - 1], f)
  }

  /** The fields a patch writes. */
  function Written(p: Patch): set<Field> {
    set i | 0 <= i < |p| :: FieldOf(p[i])
  }

  /** `{ ...e, ...p }`: the written fields take the patch's values, the
      rest read as before. */
  function Merge(e: Element, p: Patch): (r: Element)
    ensures forall f :: Get(r, f) == PatchValue(p, f).GetOr(Get(e, f))
  {
    if |p| == 0 then e else Apply(Merge(e, p[..|p| - 1]), p[|p| - 1])
  }

  /** A patch writes a field exactly when it gives it a value. */
  lemma {:induction false} WrittenHasValue(p: Patch, f: Field)
    ensures PatchValue(p, f).Some? <==> f in Written(p)
  {
    if |p| > 0 {
      var q := p[..|p| - 1];
      WrittenHasValue(q, f);
      assert Written(p) == Written(q) + {FieldOf(p[|p| - 1])} by {
        forall g | g in Written(p) ensures g in Written(q) + {FieldOf(p[|p| - 1])} {
          var i :| 0 <= i < |p| && FieldOf(p[i]) == g;
          if i < |p| - 1 { assert q[i] == p[i]; }
        }
        forall g | g in Written(q) ensures g in Written(p) {
          var i :| 0 <= i < |q| && FieldOf(q[i]) == g;
          assert p[i] == q[i];
        }
      }
    }
  }

  /** Merging never touches a field the patch does not write. */
  lemma MergeKeepsUnwritten(e: Element, p: Patch, f: Field)
    requires f !in Written(p)
    ensures Get(Merge(e, p), f) == Get(e, f)
  {
    WrittenHasValue(p, f);
  }

  /** The patch a drag or a re-centring writes: `{ ...el, x, y }`. */
  function MoveTo(x: real, y: real): Patch {
    [SetX(x), SetY(y)]
  }

  /** A move writes `x` and `y` and nothing else. */
  lemma MoveToWrites(x: real, y: real)
    ensures forall f :: (PatchValue(MoveTo(x, y), f) ==
                         if f == X then Some(Num(x)) else if f == Y then Some(Num(y)) else None)
  {
    var p := MoveTo(x, y);
    assert p[..1] == [SetX(x)] && p[..1][..0] == [];
    forall f ensures PatchValue(p, f) ==
      (if f == X then Some(Num(x)) else if f == Y then Some(Num(y)) else None)
    {
      if f != Y {
        assert PatchValue(p, f) == PatchValue([SetX(x)], f);
        if f != X {
          assert PatchValue([SetX(x)], f) == PatchValue([], f);
        }
      }
    }
  }

  lemma MoveToMoves(e: Element, x: real, y: real)
    ensures Merge(e, MoveTo(x, y)) == e.(x := x, y := y)
  {
    var p := MoveTo(x, y);
    assert p[..1] == [SetX(x)] && p[..1][..0] == [];
    assert Merge(e, p[..1]) == Apply(Merge(e, []), SetX(x)) == e.(x := x);
    assert Merge(e, p) == Apply(e.(x := x), SetY(y));
  }

  // ---------------------------------------------------------------------
  // Identity

  function Ids(es: seq<Element>): set<string> {
    set i | 0 <= i < |es| :: es[i].id
  }

  predicate UniqueIds(es: seq<Element>) {
    forall i, j :: 0 <= i < j < |es| ==> es[i].id != es[j].id
  }

  /** A well-formed document: positive size, no two elements share an id. */
  predicate ValidConfig(c: Config) {
    c.width > 0 && c.height > 0 && UniqueIds(c.elements)
  }

  /** Every element keeps its id and position in the list. */
  predicate SameIds(a: seq<Element>, b: seq<Element>) {
    |a| == |b| && forall i :: 0 <= i < |a| ==> a[i].id == b[i].id
  }

  lemma SameIdsKeepUnique(a: seq<Element>, b: seq<Element>)
    requires SameIds(a, b) && UniqueIds(a)
    ensures UniqueIds(b) && Ids(a) == Ids(b)
  {
    assert forall i :: 0 <= i < |a| ==> b[i].id == a[i].id;
  }

  // ---------------------------------------------------------------------
  // Element list operations

  /** Spreads `p` onto every element with the given id; the list keeps its
      length, order and ids. */
  function PatchWhere(es: seq<Element>, id: string, p: Patch): (r: seq<Element>)
    requires Id !in Written(p)
    ensures SameIds(es, r)
    ensures forall i, f :: 0 <= i < |es| ==>
      Get(r[i], f) == if es[i].id == id then PatchValue(p, f).GetOr(Get(es[i], f)) else Get(es[i], f)
  {
    WrittenHasValue(p, Id);
    seq(|es|, i requires 0 <= i < |es| => if es[i].id == id then Merge(es[i], p) else es[i])
  }

  /** `updateElement(id, field, value)`: only the written field of the
      elements with that id changes; the canvas size does not. */
  function UpdateElement(c: Config, id: string, u: Update): (r: Config)
    ensures r.width == c.width && r.height == c.height
    ensures SameIds(c.elements, r.elements)
    ensures forall i, f :: 0 <= i < |c.elements| ==>
      Get(r.elements[i], f) ==
        if c.elements[i].id == id && f == FieldOf(u) then ValueOf(u) else Get(c.elements[i], f)
  {
    c.(elements := PatchWhere(c.elements, id, [u]))
  }

  /** The element `addElement` appends: centred, a tenth of the shorter
      side tall, outlined white Cairo text reading "جديد". */
  function NewElement(c: Config, id: string): (e: Element)
    ensures e.id == id && !e.isDefault && e.text == NewText
    ensures e.x == c.width as real / 2.0 && e.y == c.height as real / 2.0
    ensures e.size as real - 0.5 <= Geometry.Min(c.width as real, c.height as real) / 10.0 < e.size as real + 0.5
    ensures e.kind == PlainText && e.caption == "نص إضافي"
    ensures e.color == "#ffffff" && e.font == "Cairo"
    ensures e.stroke && e.strokeColor == "#000000" && e.strokeWidth == 4
    ensures !e.strikethrough && e.align == None
  {
    var base := Geometry.Min(c.width as real, c.height as real);
    Element(id, false, PlainText, "نص إضافي", NewText,
            c.width as real / 2.0, c.height as real / 2.0,
            Geometry.Round(base * 0.1),
            "#ffffff", "Cairo", true, "#000000", 4, false, None)
  }

  const NewText: string := "جديد"

  /** `addElement` with `newId` standing for `Date.now()`: exactly one new
      element, on top, every earlier element untouched. */
  function AddElement(c: Config, newId: string): (r: Config)
    requires newId !in Ids(c.elements)
    ensures r.width == c.width && r.height == c.height
    ensures |r.elements| == |c.elements| + 1
    ensures r.elements[..|c.elements|] == c.elements
    ensures r.elements[|c.elements|] == NewElement(c, newId)
    ensures UniqueIds(c.elements) ==> UniqueIds(r.elements)
  {
    c.(elements := c.elements + [NewElement(c, newId)])
  }

  /** `elements.filter(el => el.id !== id)`. */
  function Without(es: seq<Element>, id: string): (r: seq<Element>)
    ensures forall e :: e in r <==> e in es && e.id != id
    ensures |r| <= |es|
  {
    if |es| == 0 then []
    else
      var rest := Without(es[..|es| - 1], id);
      var last := es[|es| - 1];
      assert es == es[..|es| - 1] + [last];
      if last.id == id then rest else rest + [last]
  }

  /** `deleteElement`'s document change: the element with that id is cut
      out, and the survivors keep their drawing order. */
  function DeleteElement(c: Config, id: string): (r: Config)
    ensures r.width == c.width && r.height == c.height
    ensures forall e :: e in r.elements <==> e in c.elements && e.id != id
    ensures UniqueIds(c.elements) ==>
      forall k :: 0 <= k < |c.elements| && c.elements[k].id == id ==>
        r.elements == c.elements[..k] + c.elements[k + 1..]
    ensures (forall i :: 0 <= i < |c.elements| ==> c.elements[i].id != id) ==> r.elements == c.elements
  {
    assert UniqueIds(c.elements) ==>
      forall k :: 0 <= k < |c.elements| && c.elements[k].id == id ==>
        Without(c.elements, id) == c.elements[..k] + c.elements[k + 1..] by {
      if UniqueIds(c.elements) {
        forall k | 0 <= k < |c.elements| && c.elements[k].id == id
          ensures Without(c.elements, id) == c.elements[..k] + c.elements[k + 1..]
        {
          WithoutPresent(c.elements, k, id);
        }
      }
    }
    assert (forall i :: 0 <= i < |c.elements| ==> c.elements[i].id != id) ==>
      Without(c.elements, id) == c.elements by {
      if forall i :: 0 <= i < |c.elements| ==> c.elements[i].id != id {
        WithoutAbsent(c.elements, id);
      }
    }
    c.(elements := Without(c.elements, id))
  }

  /** With unique ids, deleting an id that is present removes exactly that
      one element and keeps the others in order. */
  lemma {:induction false} WithoutPresent(es: seq<Element>, k: nat, id: string)
    requires UniqueIds(es)
    requires k < |es| && es[k].id == id
    ensures Without(es, id) == es[..k] + es[k + 1..]
    decreases |es|
  {
    var n := |es| - 1;
    var init := es[..n];
    WithoutLast(es, id);
    if k == n {
      WithoutAbsent(init, id);
      assert es[..k] + es[k + 1..] == init;
    } else {
      assert init[k] == es[k];
      PrefixUnique(es, n);
      WithoutPresent(init, k, id);
      assert es[n].id != id;
      SkipLast(es, k);
    }
  }

  /** One step of the filter: the last element is kept unless it has the id. */
  lemma WithoutLast(es: seq<Element>, id: string)
    requires |es| > 0
    ensures Without(es, id) ==
      if es[|es| - 1].id == id then Without(es[..|es| - 1], id)
      else Without(es[..|es| - 1], id) + [es[|es| - 1]]
  {
  }

  lemma SkipLast<T>(xs: seq<T>, k: nat)
    requires k < |xs| - 1
    ensures xs[..|xs| - 1][..k] + xs[..|xs| - 1][k + 1..] + [xs[|xs| - 1]] == xs[..k] + xs[k + 1..]
  {
    var init := xs[..|xs| - 1];
    assert init[..k] == xs[..k];
    assert init[k + 1..] + [xs[|xs| - 1]] == xs[k + 1..];
  }

  /** Deleting an id nobody has changes nothing. */
  lemma {:induction false} WithoutAbsent(es: seq<Element>, id: string)
    requires forall i :: 0 <= i < |es| ==> es[i].id != id
    ensures Without(es, id) == es
    decreases |es|
  {
    if |es| > 0 {
      WithoutAbsent(es[..|es| - 1], id);
      assert es == es[..|es| - 1] + [es[|es| - 1]];
    }
  }

  /** Deleting keeps ids unique. */
  lemma {:induction false} WithoutKeepsUnique(es: seq<Element>, id: string)
    requires UniqueIds(es)
    ensures UniqueIds(Without(es, id))
    decreases |es|
  {
    if |es| > 0 {
      var n := |es| - 1;
      var init := es[..n];
      PrefixUnique(es, n);
      WithoutKeepsUnique(init, id);
      var rest := Without(init, id);
      if es[n].id != id {
        forall e | e in rest ensures e.id != es[n].id {
          var k :| 0 <= k < n && init[k] == e;
          assert es[k] == e;
        }
        AppendUnique(rest, es[n]);
      }
    }
  }

  lemma PrefixUnique(es: seq<Element>, n: nat)
    requires UniqueIds(es) && n <= |es|
    ensures UniqueIds(es[..n])
  {
    assert forall i :: 0 <= i < n ==> es[..n][i] == es[i];
  }

  /** Adding an element whose id nobody has keeps ids unique. */
  lemma AppendUnique(es: seq<Element>, x: Element)
    requires UniqueIds(es)
    requires forall e :: e in es ==> e.id != x.id
    ensures UniqueIds(es + [x])
  {
    var r := es + [x];
    forall i, j | 0 <= i < j < |r| ensures r[i].id != r[j].id {
      assert r[i] == es[i];
      if j < |es| { assert r[j] == es[j]; }
    }
  }

  /** The texts the editor clears when their input is focused. */
  const DefaultTexts: seq<string> := [" 💚🤍 أبو علي 🫡", "250", "199", NewText]

  /** The document the program starts with. */
  const Initial: Config := Config(1080, 1080, [
    Element("t1", true, PlainText, "اسم المنتج", " 💚🤍 أبو علي 🫡", 540.0, 300.0, 80,
            "#333333", "Cairo", false, "#000000", 4, false, None),
    Element("p1", true, PriceText, "السعر القديم", "250", 540.0, 500.0, 60,
            "#ffffff", "Cairo", true, "#000000", 4, true, None),
    Element("p2", true, PriceText, "السعر الجديد", "199", 540.0, 650.0, 110,
            "#FEFB41", "Cairo", true, "#000000", 6, false, None)
  ])

  lemma InitialValid()
    ensures ValidConfig(Initial)
    ensures forall i :: 0 <= i < |Initial.elements| ==> Initial.elements[i].isDefault
    ensures forall i :: 0 <= i < |Initial.elements| ==> Initial.elements[i].text in DefaultTexts
  {
  }
}
