/**
 * The stored form of a kanban board. The board view hands the editor
 * `JSON.parse(initialContent)` and emits `JSON.stringify(board, null, 2)` on
 * every change. The board's encoding into a JSON value and its reading back
 * are the two functions below. An absent optional key is a key
 * `JSON.stringify` leaves out (its value was `undefined`), and reading it back
 * gives `undefined` again.
 */
module KanbanJson {
  import opened Wrappers
  import opened Collection
  import opened KanbanTypes
  import opened JsonValues

  // ---------------------------------------------------------------------------
  // Colours and placements

  function ColorToJson(c: Color): Json {
    JObject([("light", JString(c.light)), ("dark", JString(c.dark))])
  }

  function ColorFromJson(j: Json): Option<Color> {
    match j
    case JObject(f) =>
      (match (Field(f, "light"), Field(f, "dark"))
       case (Some(JString(light)), Some(JString(dark))) => Some(Color(light, dark))
       case _ => None)
    case _ => None
  }

  lemma ColorRoundTrip(c: Color)
    ensures ColorFromJson(ColorToJson(c)) == Some(c)
  {
    var f := [("light", JString(c.light)), ("dark", JString(c.dark))];
    assert f[..1] == [("light", JString(c.light))];
    assert Field(f, "dark") == Some(JString(c.dark));
    assert Field(f, "light") == Some(JString(c.light));
  }

  function OptionalColor(c: Option<Color>): Option<Json> {
    match c
    case None => None
    case Some(x) => Some(ColorToJson(x))
  }

  function OptionalPriority(p: Option<Priority>): Option<Json> {
    match p
    case None => None
    case Some(x) => Some(JNumber(x))
  }

  /** A placement object: `_id`, then `color` and `priority` when defined. */
  function PlacementToJson(p: Placement<DocAttrs>): Json {
    JObject([("_id", JString(p.id))] + Optional("color", OptionalColor(p.attrs.color)) +
      Optional("priority", OptionalPriority(p.attrs.priority)))
  }

  /** Reads a colour key that may be absent; `None` when it is present but not a colour. */
  function ReadColor(f: seq<(string, Json)>): Option<Option<Color>> {
    match Field(f, "color")
    case None => Some(None)
    case Some(j) =>
      (match ColorFromJson(j)
       case None => None
       case Some(c) => Some(Some(c)))
  }

  /** Reads a priority key that may be absent; `None` when it is present but not 1, 2 or 3. */
  function ReadPriority(f: seq<(string, Json)>): Option<Option<Priority>> {
    match Field(f, "priority")
    case None => Some(None)
    case Some(JNumber(n)) => if 1 <= n <= 3 then Some(Some(n as Priority)) else None
    case Some(_) => None
  }

  function PlacementFromJson(j: Json): Option<Placement<DocAttrs>> {
    match j
    case JObject(f) =>
      (match (Field(f, "_id"), ReadColor(f), ReadPriority(f))
       case (Some(JString(id)), Some(color), Some(priority)) => Some(Placement(id, DocAttrs(color, priority)))
       case _ => None)
    case _ => None
  }

  lemma PlacementRoundTrip(p: Placement<DocAttrs>)
    ensures PlacementFromJson(PlacementToJson(p)) == Some(p)
  {
    var f0 := [("_id", JString(p.id))];
    var f1 := f0 + Optional("color", OptionalColor(p.attrs.color));
    var f := f1 + Optional("priority", OptionalPriority(p.attrs.priority));
    assert Field(f0, "_id") == Some(JString(p.id));
    assert Field(f0, "color").None? && Field(f0, "priority").None?;
    FieldAfterOptional(f0, "color", OptionalColor(p.attrs.color), "_id");
    FieldAfterOptional(f0, "color", OptionalColor(p.attrs.color), "priority");
    FieldAfterOptional(f1, "priority", OptionalPriority(p.attrs.priority), "_id");
    FieldAfterOptional(f1, "priority", OptionalPriority(p.attrs.priority), "color");
    if p.attrs.color.Some? {
      ColorRoundTrip(p.attrs.color.value);
    }
    assert ReadColor(f) == Some(p.attrs.color);
    assert ReadPriority(f) == Some(p.attrs.priority);
  }

  function PlacementsToJson(ps: seq<Placement<DocAttrs>>): (r: seq<Json>)
    ensures |r| == |ps| && forall i :: 0 <= i < |ps| ==> r[i] == PlacementToJson(ps[i])
  {
    seq(|ps|, i requires 0 <= i < |ps| => PlacementToJson(ps[i]))
  }

  function PlacementsFromJson(js: seq<Json>): Option<seq<Placement<DocAttrs>>> {
    if |js| == 0 then Some([])
    else
      match (PlacementFromJson(js[0]), PlacementsFromJson(js[1..]))
      case (Some(p), Some(ps)) => Some([p] + ps)
      case _ => None
  }

  lemma {:induction false} PlacementsRoundTrip(ps: seq<Placement<DocAttrs>>)
    ensures PlacementsFromJson(PlacementsToJson(ps)) == Some(ps)
  {
    if |ps| > 0 {
      var js := PlacementsToJson(ps);
      assert js[1..] == PlacementsToJson(ps[1..]);
      PlacementRoundTrip(ps[0]);
      PlacementsRoundTrip(ps[1..]);
      assert ps == [ps[0]] + ps[1..];
    }
  }

  // ---------------------------------------------------------------------------
  // Columns and boards

  /** A column object: `_id`, `name`, `content`, then `color` when defined. */
  function ElementToJson(e: Element<ColumnAttrs, DocAttrs>): Json {
    JObject([("_id", JString(e.id)), ("name", JString(e.name)), ("content", JArray(PlacementsToJson(e.content)))] +
      Optional("color", OptionalColor(e.attrs.color)))
  }

  function ElementFromJson(j: Json): Option<Element<ColumnAttrs, DocAttrs>> {
    match j
    case JObject(f) =>
      (match (Field(f, "_id"), Field(f, "name"), Field(f, "content"), ReadColor(f))
       case (Some(JString(id)), Some(JString(name)), Some(JArray(items)), Some(color)) =>
         (match PlacementsFromJson(items)
          case Some(content) => Some(Element(id, name, content, ColumnAttrs(color)))
          case None => None)
       case _ => None)
    case _ => None
  }

  lemma ElementRoundTrip(e: Element<ColumnAttrs, DocAttrs>)
    ensures ElementFromJson(ElementToJson(e)) == Some(e)
  {
    var c := JArray(PlacementsToJson(e.content));
    var f0 := [("_id", JString(e.id)), ("name", JString(e.name)), ("content", c)];
    var f := f0 + Optional("color", OptionalColor(e.attrs.color));
    assert f0[..2] == [("_id", JString(e.id)), ("name", JString(e.name))];
    assert f0[..2][..1] == [("_id", JString(e.id))];
    assert Field(f0[..2], "_id") == Some(JString(e.id));
    assert Field(f0, "_id") == Some(JString(e.id));
    assert Field(f0, "name") == Some(JString(e.name));
    assert Field(f0, "content") == Some(c);
    assert Field(f0, "color").None?;
    FieldAfterOptional(f0, "color", OptionalColor(e.attrs.color), "_id");
    FieldAfterOptional(f0, "color", OptionalColor(e.attrs.color), "name");
    FieldAfterOptional(f0, "color", OptionalColor(e.attrs.color), "content");
    if e.attrs.color.Some? {
      ColorRoundTrip(e.attrs.color.value);
    }
    assert ReadColor(f) == Some(e.attrs.color);
    PlacementsRoundTrip(e.content);
  }

  /** The board as `JSON.stringify` sees it: an array of column objects. */
  function BoardToJson(b: KanbanBoard): Json {
    JArray(ElementsToJson(b))
  }

  function ElementsToJson(b: KanbanBoard): (r: seq<Json>)
    ensures |r| == |b| && forall i :: 0 <= i < |b| ==> r[i] == ElementToJson(b[i])
  {
    seq(|b|, i requires 0 <= i < |b| => ElementToJson(b[i]))
  }

  function ElementsFromJson(js: seq<Json>): Option<KanbanBoard> {
    if |js| == 0 then Some([])
    else
      match (ElementFromJson(js[0]), ElementsFromJson(js[1..]))
      case (Some(e), Some(es)) => Some([e] + es)
      case _ => None
  }

  /** Reading a parsed value as a board; `None` for a value of another shape. */
  function BoardFromJson(j: Json): Option<KanbanBoard> {
    match j
    case JArray(items) => ElementsFromJson(items)
    case _ => None
  }

  lemma {:induction false} ElementsRoundTrip(b: KanbanBoard)
    ensures ElementsFromJson(ElementsToJson(b)) == Some(b)
  {
    if |b| > 0 {
      var js := ElementsToJson(b);
      var rest := b[1..];
      assert js[1..] == ElementsToJson(rest);
      ElementRoundTrip(b[0]);
      ElementsRoundTrip(rest);
      assert b == [b[0]] + rest;
    }
  }

  /** Every board read back from its encoding is the same board, attributes and order included. */
  lemma BoardRoundTrip(b: KanbanBoard)
    ensures BoardFromJson(BoardToJson(b)) == Some(b)
  {
    ElementsRoundTrip(b);
  }
}
