/** The export pipeline's own logic (`downloadPDF`): refresh the preview,
    raise the busy indicator, choose the template root to capture, name the
    file after the person, and clear the busy indicator whether the external
    rasterizer succeeds or fails. Stylesheet extraction, the off-screen
    document's markup, the settle delay and the rasterizer itself are outside
    the model; the rasterizer's outcome is a parameter. */
module Export {
  import opened Optional
  import opened Text
  import opened Resume
  import opened Collector
  import opened Templates

  /** The root `downloadPDF` captures: the LAST root, in document order, whose
      display is not `none`; when every root is hidden, the first root; when
      there is no root at all, none. */
  function SelectExport(rs: seq<Root>): (r: Option<nat>)
    ensures r.None? <==> |rs| == 0
    ensures r.Some? ==> r.value < |rs|
    ensures VisibleRoots(rs) != {} ==> r.Some? && r.value in VisibleRoots(rs)
                                       && forall k | k in VisibleRoots(rs) :: k <= r.value
    ensures VisibleRoots(rs) == {} && |rs| > 0 ==> r == Some(0)
  {
    match LastVisible(rs)
    case Some(k) => Some(k)
    case None => if |rs| > 0 then Some(0) else None
  }

  /** The last root whose display is not `none`, searching from the end. */
  function LastVisible(rs: seq<Root>): (r: Option<nat>)
    ensures r.Some? ==> r.value in VisibleRoots(rs) && forall k | k in VisibleRoots(rs) :: k <= r.value
    ensures r.None? ==> VisibleRoots(rs) == {}
    decreases |rs|
  {
    if |rs| == 0 then None
    else if rs[|rs| - 1].display != "none" then Some(|rs| - 1)
    else
      var front := rs[..|rs| - 1];
      assert forall k: nat | k < |front| :: front[k] == rs[k];
      assert VisibleRoots(rs) == VisibleRoots(front);
      LastVisible(front)
  }

  /** The selection as the page performs it: one pass over the roots in
      document order, each visible root replacing the previous choice, then
      the first root when no choice was made. */
  method SelectExportTemplate(rs: seq<Root>) returns (r: Option<nat>)
    ensures r == SelectExport(rs)
    ensures r.Some? && rs[r.value].display != "none" ==>
              forall k :: r.value < k < |rs| ==> rs[k].display == "none"
  {
    r := None;
    for i := 0 to |rs|
      invariant r.Some? ==> r.value < i && rs[r.value].display != "none"
      invariant r.Some? ==> forall k :: r.value < k < i ==> rs[k].display == "none"
      invariant r.None? ==> forall k :: 0 <= k < i ==> rs[k].display == "none"
    {
      if rs[i].display != "none" {
        r := Some(i);
      }
    }
    if r.None? {
      assert VisibleRoots(rs) == {};
      if |rs| > 0 {
        r := Some(0);
      }
    } else {
      assert r.value in VisibleRoots(rs);
      forall k | k in VisibleRoots(rs)
        ensures k <= r.value
      {
        assert rs[k].display != "none";
      }
    }
  }

  /** After a completed switch the export captures the switched-to root. */
  lemma ExportFollowsSwitch(page: Page, name: string)
    requires SwitchTemplate(page, name).Switched?
    ensures SelectExport(SwitchTemplate(page, name).page.roots)
            == FirstIndexOf(RootIds(page.roots), RootId(name))
  {
  }

  /** After a switch that threw for want of a root, every root is hidden and
      the export falls back to the first root, whatever the current
      template. */
  lemma ExportAfterMissingRoot(page: Page, name: string)
    requires SwitchTemplate(page, name) == Threw(SwitchTemplate(page, name).page, NoRoot)
    requires |page.roots| > 0
    ensures SelectExport(SwitchTemplate(page, name).page.roots) == Some(0)
  {
  }

  /** The literal used for an empty first or last name in the file name. */
  const NameFallback: string := "Resume"

  /** The file name: `<first>_<last>.pdf`, each part replaced by `Resume` when
      it is empty (JavaScript `||`, so a blank part is kept). */
  function ExportFilename(personal: PersonalInfo): (r: string)
    ensures personal.firstName != "" && personal.lastName != "" ==>
              r == personal.firstName + "_" + personal.lastName + ".pdf"
    ensures personal.firstName == "" && personal.lastName != "" ==>
              r == NameFallback + "_" + personal.lastName + ".pdf"
    ensures personal.firstName != "" && personal.lastName == "" ==>
              r == personal.firstName + "_" + NameFallback + ".pdf"
    ensures personal.firstName == "" && personal.lastName == "" ==>
              r == NameFallback + "_" + NameFallback + ".pdf"
  {
    Or(personal.firstName, NameFallback) + "_" + Or(personal.lastName, NameFallback) + ".pdf"
  }

  /** The name of an exported file, as `downloadPDF` computes it after
      refreshing the preview: the collected first and last names, so an empty
      input yields the personal fallback (`John`, `Doe`) and never `Resume`. */
  lemma FilenameAfterCollect(inputs: FormInputs)
    ensures ExportFilename(Collect(inputs).personal)
            == PersonalValue(inputs.fields, FirstName) + "_" + PersonalValue(inputs.fields, LastName) + ".pdf"
  {
  }

  /** An empty first name and last name `Lee` export as `John_Lee.pdf`. */
  lemma FilenameOfEmptyFirstName(inputs: FormInputs)
    requires FormGet(inputs.fields, "firstName") == Some("")
    requires FormGet(inputs.fields, "lastName") == Some("Lee")
    ensures ExportFilename(Collect(inputs).personal) == "John_Lee.pdf"
  {
    FilenameAfterCollect(inputs);
    var first, last := PersonalValue(inputs.fields, FirstName), PersonalValue(inputs.fields, LastName);
    assert first == "John" && last == "Lee";
    JohnLee(first, last);
  }

  lemma JohnLee(first: string, last: string)
    requires first == "John" && last == "Lee"
    ensures first + "_" + last + ".pdf" == "John_Lee.pdf"
  {
  }

  /** A file the rasterizer saved: the captured root and the file name. */
  datatype Saved = Saved(root: nat, filename: string)

  /** What one export leaves behind: the refreshed page, the busy indicator,
      whether the off-screen container is still mounted, whether the failure
      notice was shown, and the saved file. */
  datatype ExportRun = ExportRun(page: Page, busy: bool, mounted: bool, alerted: bool, saved: Option<Saved>)

  /** `downloadPDF`: with no root the capture throws before anything is
      mounted; otherwise the container is mounted and the rasterizer runs. On
      success the container is removed; on failure the handler only clears
      the busy indicator and shows the notice, leaving the container
      mounted. */
  function DownloadPdf(page: Page, rasterized: bool): (r: ExportRun)
    ensures r.page == UpdatePreview(page)
    ensures !r.busy
    ensures r.alerted <==> r.saved.None?
    ensures r.saved.Some? <==> |page.roots| > 0 && rasterized
    ensures r.saved.Some? ==> SelectExport(page.roots) == Some(r.saved.value.root)
                              && r.saved.value.filename == ExportFilename(Collect(page.inputs).personal)
    ensures r.mounted <==> |page.roots| > 0 && !rasterized
  {
    var p := UpdatePreview(page);
    match SelectExport(p.roots)
    case None => ExportRun(p, false, false, true, None)
    case Some(j) =>
      if rasterized then ExportRun(p, false, false, false, Some(Saved(j, ExportFilename(p.data.personal))))
      else ExportRun(p, false, true, true, None)
  }

  /** A failed rasterization leaves the off-screen container in the page. */
  lemma FailedExportLeavesContainer(page: Page)
    requires |page.roots| > 0
    ensures DownloadPdf(page, false).mounted
  {
  }

  /** The export with the failure path removing the container as well, as the
      success path does. */
  function DownloadPdfWithCleanup(page: Page, rasterized: bool): (r: ExportRun)
    ensures r.page == UpdatePreview(page)
    ensures !r.busy && !r.mounted
    ensures r.alerted <==> r.saved.None?
    ensures r.saved.Some? <==> |page.roots| > 0 && rasterized
    ensures r.saved.Some? ==> SelectExport(page.roots) == Some(r.saved.value.root)
                              && r.saved.value.filename == ExportFilename(Collect(page.inputs).personal)
  {
    var p := UpdatePreview(page);
    match SelectExport(p.roots)
    case None => ExportRun(p, false, false, true, None)
    case Some(j) =>
      if rasterized then ExportRun(p, false, false, false, Some(Saved(j, ExportFilename(p.data.personal))))
      else ExportRun(p, false, false, true, None)
  }

  /** The cleaned-up export differs from the page's only in the container. */
  lemma CleanupChangesOnlyContainer(page: Page, rasterized: bool)
    ensures DownloadPdfWithCleanup(page, rasterized) == DownloadPdf(page, rasterized).(mounted := false)
  {
  }
}
