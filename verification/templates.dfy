/** The page state around the view synchronizer and the template registry
    (`updatePreview`, `switchTemplate`): the form's inputs, the template
    selector buttons, the template roots, the binding elements and the stored
    snapshot. */
module Templates {
  import opened Optional
  import opened Resume
  import opened Collector
  import opened Dom
  import opened View
  import ViewLaws

  /** A `.template-btn` with its `data-template` name and its `active` class. */
  datatype Button = Button(template: string, active: bool)

  /** A `.resume-template` root with its id and its display. */
  datatype Root = Root(id: string, display: string)

  /** Everything the page's handlers read and write. `current` is
      `currentTemplate`; `data` is the stored snapshot `resumeData`. */
  datatype Page = Page(
    current: string,
    inputs: FormInputs,
    buttons: seq<Button>,
    roots: seq<Root>,
    nodes: map<string, Node>,
    data: ResumeData)

  /** `updatePreview`: collect the inputs, project the snapshot onto the
      current template, store the snapshot. */
  function UpdatePreview(page: Page): (r: Page)
    ensures r.data == Collect(page.inputs) && Complete(r.data)
    ensures r.nodes == Project(page.nodes, page.current, r.data)
    ensures r.current == page.current && r.inputs == page.inputs
    ensures r.buttons == page.buttons && r.roots == page.roots
  {
    var d := Collect(page.inputs);
    page.(nodes := Project(page.nodes, page.current, d), data := d)
  }

  /** Refreshing twice in a row is refreshing once: collection reads only the
      inputs and the projection is idempotent. */
  lemma UpdatePreviewIdempotent(page: Page)
    ensures UpdatePreview(UpdatePreview(page)) == UpdatePreview(page)
  {
    ViewLaws.ProjectIdempotent(page.nodes, page.current, Collect(page.inputs));
  }

  /** The position of the first element equal to `x`, if any. */
  function FirstIndexOf(xs: seq<string>, x: string): (r: Option<nat>)
    ensures r.Some? ==> r.value < |xs| && xs[r.value] == x && forall k :: 0 <= k < r.value ==> xs[k] != x
    ensures r.None? ==> forall k :: 0 <= k < |xs| ==> xs[k] != x
    decreases |xs|
  {
    if |xs| == 0 then None
    else if xs[0] == x then Some(0)
    else match FirstIndexOf(xs[1..], x)
      case Some(i) => Some(i + 1)
      case None => None
  }

  /** The `data-template` names of the buttons, in document order. */
  function ButtonNames(bs: seq<Button>): (r: seq<string>)
    ensures |r| == |bs| && forall k :: 0 <= k < |bs| ==> r[k] == bs[k].template
  {
    seq(|bs|, k requires 0 <= k < |bs| => bs[k].template)
  }

  /** The ids of the roots, in document order. */
  function RootIds(rs: seq<Root>): (r: seq<string>)
    ensures |r| == |rs| && forall k :: 0 <= k < |rs| ==> r[k] == rs[k].id
  {
    seq(|rs|, k requires 0 <= k < |rs| => rs[k].id)
  }

  /** Every button loses its `active` class. */
  function ClearButtons(bs: seq<Button>): (r: seq<Button>)
    ensures |r| == |bs|
    ensures forall k :: 0 <= k < |r| ==> r[k] == bs[k].(active := false)
  {
    seq(|bs|, k requires 0 <= k < |bs| => bs[k].(active := false))
  }

  /** Every root is hidden. */
  function HideRoots(rs: seq<Root>): (r: seq<Root>)
    ensures |r| == |rs|
    ensures forall k :: 0 <= k < |r| ==> r[k] == rs[k].(display := "none")
  {
    seq(|rs|, k requires 0 <= k < |rs| => rs[k].(display := "none"))
  }

  /** The buttons after a switch found button `i`: every one cleared, then
      `i` marked. */
  function SelectButton(bs: seq<Button>, i: nat): (r: seq<Button>)
    requires i < |bs|
    ensures ButtonNames(r) == ButtonNames(bs)
    ensures ActiveButtons(r) == {i}
  {
    var r := ClearButtons(bs)[i := bs[i].(active := true)];
    assert ButtonNames(r) == ButtonNames(bs);
    assert i in ActiveButtons(r);
    r
  }

  /** The roots after a switch found root `j`: every one hidden, then `j`
      shown as a block. */
  function ShowRoot(rs: seq<Root>, j: nat): (r: seq<Root>)
    requires j < |rs|
    ensures RootIds(r) == RootIds(rs)
    ensures VisibleRoots(r) == {j} && r[j].display == "block"
  {
    var r := HideRoots(rs)[j := rs[j].(display := "block")];
    assert RootIds(r) == RootIds(rs);
    assert j in VisibleRoots(r);
    r
  }

  /** Selecting the selected button again changes nothing. */
  lemma SelectButtonAgain(bs: seq<Button>, i: nat)
    requires i < |bs|
    ensures SelectButton(SelectButton(bs, i), i) == SelectButton(bs, i)
  {
  }

  /** Showing the shown root again changes nothing. */
  lemma ShowRootAgain(rs: seq<Root>, j: nat)
    requires j < |rs|
    ensures ShowRoot(ShowRoot(rs, j), j) == ShowRoot(rs, j)
  {
  }

  /** The positions of the buttons carrying the `active` class. */
  function ActiveButtons(bs: seq<Button>): set<nat> {
    set k: nat | k < |bs| && bs[k].active
  }

  /** The positions of the roots whose display is not `none`. */
  function VisibleRoots(rs: seq<Root>): set<nat> {
    set k: nat | k < |rs| && rs[k].display != "none"
  }

  /** Hiding every root leaves none visible. */
  lemma HideRootsHidesAll(rs: seq<Root>)
    ensures VisibleRoots(HideRoots(rs)) == {}
  {
  }

  /** Clearing every button leaves none active. */
  lemma ClearButtonsClearsAll(bs: seq<Button>)
    ensures ActiveButtons(ClearButtons(bs)) == {}
  {
  }

  /** The root id of a template. */
  function RootId(name: string): string {
    "template-" + name
  }

  /** Why `switchTemplate` stops with an exception: no button carries the
      name (`querySelector` yields `null`), or no root has its id
      (`getElementById` yields `null`). */
  datatype SwitchError = NoButton | NoRoot

  /** The page after `switchTemplate`, or the page as the exception leaves it:
      the steps before the failing one have already happened. */
  datatype Switch = Switched(page: Page) | Threw(page: Page, error: SwitchError)

  /** `switchTemplate(name)`: clear every button, mark the first button of
      that name, hide every root, show the first root with id
      `template-<name>`, make the template current, refresh the preview. */
  function SwitchTemplate(page: Page, name: string): (r: Switch)
    ensures r.Switched? <==> FirstIndexOf(ButtonNames(page.buttons), name).Some?
                             && FirstIndexOf(RootIds(page.roots), RootId(name)).Some?
    ensures r.page.inputs == page.inputs
    ensures r.Switched? ==>
              var i := FirstIndexOf(ButtonNames(page.buttons), name).value;
              var j := FirstIndexOf(RootIds(page.roots), RootId(name)).value;
              && r.page.current == name
              && ButtonNames(r.page.buttons) == ButtonNames(page.buttons)
              && ActiveButtons(r.page.buttons) == {i}
              && RootIds(r.page.roots) == RootIds(page.roots)
              && VisibleRoots(r.page.roots) == {j}
              && r.page.roots[j].display == "block"
              && r.page.data == Collect(page.inputs)
              && r.page.nodes == Project(page.nodes, name, r.page.data)
    ensures r == Threw(r.page, NoButton) ==>
              && r.page == page.(buttons := ClearButtons(page.buttons))
              && ActiveButtons(r.page.buttons) == {}
    ensures r.Threw? ==> (r.error == NoButton <==> FirstIndexOf(ButtonNames(page.buttons), name).None?)
    ensures r == Threw(r.page, NoRoot) ==>
              && FirstIndexOf(ButtonNames(page.buttons), name).Some?
              && var i := FirstIndexOf(ButtonNames(page.buttons), name).value;
              && r.page == page.(buttons := SelectButton(page.buttons, i), roots := HideRoots(page.roots))
              && ActiveButtons(r.page.buttons) == {i}
              && VisibleRoots(r.page.roots) == {}
  {
    ClearButtonsClearsAll(page.buttons);
    HideRootsHidesAll(page.roots);
    match FirstIndexOf(ButtonNames(page.buttons), name)
    case None => Threw(page.(buttons := ClearButtons(page.buttons)), NoButton)
    case Some(i) =>
      match FirstIndexOf(RootIds(page.roots), RootId(name))
      case None => Threw(page.(buttons := SelectButton(page.buttons, i), roots := HideRoots(page.roots)), NoRoot)
      case Some(j) =>
        Switched(UpdatePreview(page.(buttons := SelectButton(page.buttons, i),
                                     roots := ShowRoot(page.roots, j), current := name)))
  }

  /** Switching again to the template just switched to changes nothing. */
  lemma SwitchIdempotent(page: Page, name: string)
    requires SwitchTemplate(page, name).Switched?
    ensures SwitchTemplate(SwitchTemplate(page, name).page, name) == SwitchTemplate(page, name)
  {
    var i := FirstIndexOf(ButtonNames(page.buttons), name).value;
    var j := FirstIndexOf(RootIds(page.roots), RootId(name)).value;
    var p := page.(buttons := SelectButton(page.buttons, i),
                   roots := ShowRoot(page.roots, j), current := name);
    SelectButtonAgain(page.buttons, i);
    ShowRootAgain(page.roots, j);
    UpdatePreviewIdempotent(p);
  }
}
