/** The part of the document the view synchronizer writes to: elements found
    by id, each with a content (its text or markup) and an inline `display`
    style. A write addresses an element by id and does nothing when no element
    has that id, which is how the page treats a binding point a template does
    not define. */
module Dom {
  import opened Optional

  datatype Node = Node(content: string, display: string)

  /** One guarded assignment: `textContent`/`innerHTML`, or `style.display`. */
  datatype Write = SetContent(id: string, value: string) | SetDisplay(id: string, value: string)

  /** One write: the addressed element's field changes, nothing else does. */
  function ApplyWrite(nodes: map<string, Node>, w: Write): (r: map<string, Node>)
    ensures r.Keys == nodes.Keys
    ensures forall id | id in nodes && id != w.id :: r[id] == nodes[id]
    ensures w.id in nodes && w.SetContent? ==> r[w.id] == nodes[w.id].(content := w.value)
    ensures w.id in nodes && w.SetDisplay? ==> r[w.id] == nodes[w.id].(display := w.value)
  {
    if w.id !in nodes then nodes
    else match w
      case SetContent(id, v) => nodes[id := nodes[id].(content := v)]
      case SetDisplay(id, v) => nodes[id := nodes[id].(display := v)]
  }

  /** The writes, performed in order. */
  function ApplyAll(nodes: map<string, Node>, ws: seq<Write>): (r: map<string, Node>)
    ensures r.Keys == nodes.Keys
    decreases |ws|
  {
    if |ws| == 0 then nodes else ApplyAll(ApplyWrite(nodes, ws[0]), ws[1..])
  }

  /** The value of the last content write to `id`, if any. */
  function LastContent(ws: seq<Write>, id: string): Option<string>
    decreases |ws|
  {
    if |ws| == 0 then None
    else match LastContent(ws[1..], id)
      case Some(v) => Some(v)
      case None => if ws[0].SetContent? && ws[0].id == id then Some(ws[0].value) else None
  }

  /** The value of the last display write to `id`, if any. */
  function LastDisplay(ws: seq<Write>, id: string): Option<string>
    decreases |ws|
  {
    if |ws| == 0 then None
    else match LastDisplay(ws[1..], id)
      case Some(v) => Some(v)
      case None => if ws[0].SetDisplay? && ws[0].id == id then Some(ws[0].value) else None
  }

  /** After a run of writes, each field of an element holds the last value
      written to it, or its old value when nothing was written to it. */
  lemma {:induction false} ApplyAllFinal(nodes: map<string, Node>, ws: seq<Write>, id: string)
    requires id in nodes
    ensures ApplyAll(nodes, ws)[id].content == LastContent(ws, id).GetOr(nodes[id].content)
    ensures ApplyAll(nodes, ws)[id].display == LastDisplay(ws, id).GetOr(nodes[id].display)
    decreases |ws|
  {
    if |ws| > 0 {
      ApplyAllFinal(ApplyWrite(nodes, ws[0]), ws[1..], id);
    }
  }

  /** Performing the same writes a second time changes nothing. */
  lemma ApplyAllIdempotent(nodes: map<string, Node>, ws: seq<Write>)
    ensures ApplyAll(ApplyAll(nodes, ws), ws) == ApplyAll(nodes, ws)
  {
    var once := ApplyAll(nodes, ws);
    var twice := ApplyAll(once, ws);
    forall id | id in nodes
      ensures twice[id] == once[id]
    {
      ApplyAllFinal(nodes, ws, id);
      ApplyAllFinal(once, ws, id);
    }
  }

  /** The last content write to `id` is the only kind there is when every
      content write to `id` carries the same value `v`. */
  lemma {:induction false} LastContentUniform(ws: seq<Write>, id: string, v: string)
    requires SetContent(id, v) in ws
    requires forall w | w in ws && w.SetContent? && w.id == id :: w.value == v
    ensures LastContent(ws, id) == Some(v)
    decreases |ws|
  {
    if SetContent(id, v) in ws[1..] {
      LastContentUniform(ws[1..], id, v);
    } else {
      assert ws[0] == SetContent(id, v);
      LastContentNone(ws[1..], id);
    }
  }

  /** No content write to `id` leaves no last value. */
  lemma {:induction false} LastContentNone(ws: seq<Write>, id: string)
    requires forall w | w in ws :: !(w.SetContent? && w.id == id)
    ensures LastContent(ws, id) == None
    decreases |ws|
  {
    if |ws| > 0 {
      assert ws[0] in ws;
      LastContentNone(ws[1..], id);
    }
  }

  /** The display analogue of `LastContentUniform`. */
  lemma {:induction false} LastDisplayUniform(ws: seq<Write>, id: string, v: string)
    requires SetDisplay(id, v) in ws
    requires forall w | w in ws && w.SetDisplay? && w.id == id :: w.value == v
    ensures LastDisplay(ws, id) == Some(v)
    decreases |ws|
  {
    if SetDisplay(id, v) in ws[1..] {
      LastDisplayUniform(ws[1..], id, v);
    } else {
      assert ws[0] == SetDisplay(id, v);
      LastDisplayNone(ws[1..], id);
    }
  }

  lemma {:induction false} LastDisplayNone(ws: seq<Write>, id: string)
    requires forall w | w in ws :: !(w.SetDisplay? && w.id == id)
    ensures LastDisplay(ws, id) == None
    decreases |ws|
  {
    if |ws| > 0 {
      assert ws[0] in ws;
      LastDisplayNone(ws[1..], id);
    }
  }

  /** An element no write addresses keeps both fields. */
  lemma Untouched(nodes: map<string, Node>, ws: seq<Write>, id: string)
    requires id in nodes
    requires Misses(ws, id)
    ensures ApplyAll(nodes, ws)[id] == nodes[id]
  {
    LastContentNone(ws, id);
    LastDisplayNone(ws, id);
    ApplyAllFinal(nodes, ws, id);
  }

  /** No write in `ws` addresses `id`. */
  predicate Misses(ws: seq<Write>, id: string) {
    forall w | w in ws :: w.id != id
  }

  /** Performing `a + b` is performing `a`, then `b`. */
  lemma {:induction false} ApplyAllAppend(nodes: map<string, Node>, a: seq<Write>, b: seq<Write>)
    ensures ApplyAll(nodes, a + b) == ApplyAll(ApplyAll(nodes, a), b)
    decreases |a|
  {
    if |a| == 0 {
      assert a + b == b;
    } else {
      assert (a + b)[1..] == a[1..] + b;
      ApplyAllAppend(ApplyWrite(nodes, a[0]), a[1..], b);
    }
  }

  /** The last content write of `a + b` is the last one of `b`, or else the
      last one of `a`. */
  lemma {:induction false} LastContentAppend(a: seq<Write>, b: seq<Write>, id: string)
    ensures LastContent(a + b, id) == if LastContent(b, id).Some? then LastContent(b, id) else LastContent(a, id)
    decreases |a|
  {
    if |a| == 0 {
      assert a + b == b;
    } else {
      assert (a + b)[1..] == a[1..] + b;
      LastContentAppend(a[1..], b, id);
    }
  }

  /** The display analogue of `LastContentAppend`. */
  lemma {:induction false} LastDisplayAppend(a: seq<Write>, b: seq<Write>, id: string)
    ensures LastDisplay(a + b, id) == if LastDisplay(b, id).Some? then LastDisplay(b, id) else LastDisplay(a, id)
    decreases |a|
  {
    if |a| == 0 {
      assert a + b == b;
    } else {
      assert (a + b)[1..] == a[1..] + b;
      LastDisplayAppend(a[1..], b, id);
    }
  }

  /** Writes that miss `id` leave no last value for it. */
  lemma MissesNone(ws: seq<Write>, id: string)
    requires Misses(ws, id)
    ensures LastContent(ws, id) == None && LastDisplay(ws, id) == None
  {
    LastContentNone(ws, id);
    LastDisplayNone(ws, id);
  }
}
