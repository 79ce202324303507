/** `exportPlan` / `importPlan` of script.js: the plan document and the defaults
    `importPlan` applies through `addArrowMarker`. */
module PlanCodec {
  import opened Base
  import opened Annotations
  import Text

  /** One entry of a document's `markers`; `kind`, `caption` and `angle` may be
      missing in a stored document. */
  datatype MarkerDoc = MarkerDoc(lat: real, lng: real, kind: Option<string>, caption: Option<string>, angle: Option<int>)

  /** The plan document: `image`, `size` as (width, height), `markers`, `lines`;
      every field may be missing in a stored document. */
  datatype PlanDoc = PlanDoc(image: Option<string>, size: Option<(int, int)>,
                             markers: Option<seq<MarkerDoc>>, lines: Option<seq<Polyline>>)

  /** `imageLayer._url ? imageLayer._url : null`. */
  function ImageOf(url: string): Option<string> {
    if url == "" then None else Some(url)
  }

  /** The document entry of one marker: its position and its record's type, label
      and angle (`angle||0` leaves an integer unchanged). */
  function ExportMarker(m: Marker): MarkerDoc {
    MarkerDoc(m.pos.lat, m.pos.lng, Some(m.kind), Some(m.caption), Some(m.angle))
  }

  /** `currentMarkers.map(...)`: one entry per marker, in the same order. */
  function ExportMarkers(ms: seq<Marker>): (ds: seq<MarkerDoc>)
    ensures |ds| == |ms|
    ensures forall i :: 0 <= i < |ms| ==> ds[i] == ExportMarker(ms[i])
    decreases |ms|
  {
    if ms == [] then [] else ExportMarkers(ms[..|ms| - 1]) + [ExportMarker(ms[|ms| - 1])]
  }

  /** `exportPlan()` over the map's state. */
  function Export(url: string, size: (int, int), ms: seq<Marker>, ls: seq<Polyline>): PlanDoc {
    PlanDoc(ImageOf(url), Some(size), Some(ExportMarkers(ms)), Some(ls))
  }

  /** What a document entry exports as once `importPlan` has placed it with
      `addArrowMarker` (identities do not appear in documents). */
  function NormalizeDoc(d: MarkerDoc): MarkerDoc {
    ExportMarker(ArrowMarker(0, Point(d.lat, d.lng), d.kind, d.caption, d.angle))
  }

  /** The entries `importPlan` yields: each document entry with `addArrowMarker`'s
      defaults applied, in document order. */
  function NormalizeAll(ds: seq<MarkerDoc>): (r: seq<MarkerDoc>)
    ensures |r| == |ds|
    ensures forall i :: 0 <= i < |ds| ==> r[i] == NormalizeDoc(ds[i])
    decreases |ds|
  {
    if ds == [] then [] else NormalizeAll(ds[..|ds| - 1]) + [NormalizeDoc(ds[|ds| - 1])]
  }

  /** The document `exportPlan` gives right after `importPlan(data)`, where
      `prevUrl` and `prevSize` are the image and size before the call: a missing
      document only empties the markers and lines; otherwise image, size, markers
      and lines come from the document with their defaults applied. */
  function AfterImport(prevUrl: string, prevSize: (int, int), data: Option<PlanDoc>): PlanDoc {
    match data
    case None => PlanDoc(ImageOf(prevUrl), Some(prevSize), Some([]), Some([]))
    case Some(d) =>
      PlanDoc(ImageOf(d.image.GetOr("")), Some(d.size.GetOr(prevSize)),
              Some(NormalizeAll(d.markers.GetOr([]))), Some(d.lines.GetOr([])))
  }

  /** A marker placed by `addArrowMarker` already carries its defaults, so
      importing its entry reproduces the entry. */
  lemma {:induction false} NormalizeAllExport(ms: seq<Marker>)
    requires forall i :: 0 <= i < |ms| ==> ms[i].kind != ""
    ensures NormalizeAll(ExportMarkers(ms)) == ExportMarkers(ms)
    decreases |ms|
  {
    if ms != [] {
      var ds := ExportMarkers(ms);
      NormalizeAllExport(ms[..|ms| - 1]);
      assert ds[..|ds| - 1] == ExportMarkers(ms[..|ms| - 1]);
      assert NormalizeDoc(ds[|ds| - 1]) == ds[|ds| - 1];
    }
  }

  /** The round trip: exporting after `importPlan(exportPlan())` gives the same
      document, whatever the map held before: same image, same size, the same
      markers (lat, lng, type, label, angle) and lines (type, points), in order. */
  lemma RoundTrip(url: string, size: (int, int), ms: seq<Marker>, ls: seq<Polyline>,
                  prevUrl: string, prevSize: (int, int))
    requires forall i :: 0 <= i < |ms| ==> ms[i].kind != ""
    ensures AfterImport(prevUrl, prevSize, Some(Export(url, size, ms, ls))) == Export(url, size, ms, ls)
  {
    NormalizeAllExport(ms);
  }

  /** The label/heading edit as script.js writes it never reaches the document:
      the exported entry is the one from before the edit, while the marker on
      screen shows the new label. */
  lemma EditLostOnExportAsWritten(p: PlacedMarker, text: string, angle: Option<int>)
    ensures ExportMarker(EditAsWritten(p, Some(text), angle).rec) == ExportMarker(p.rec)
    ensures EditAsWritten(p, Some(text), angle).layerLabel == Text.Trim(text)
  {
  }

  /** A concrete instance: a marker placed with an empty label, relabelled "A". */
  lemma EditLostOnExportExample()
    ensures var p := PlacedMarker(Marker(0, Point(100.0, 100.0), "enemy", "", 0), "", 0);
      var q := EditAsWritten(p, Some("A"), Some(90));
      q.layerLabel == "A" && ExportMarker(q.rec).caption == Some("")
  {
    var a := "A";
    assert !Text.IsWhitespace(a[0]);
    assert Text.TrimStart(a) == a;
    assert Text.TrimEnd(a) == a;
    assert Text.Trim(a) == a;
  }

  /** With the edit applied to the record, the exported entry carries the trimmed
      label and the new heading, and keeps position and type. */
  lemma EditRecordExported(m: Marker, text: string, angle: Option<int>)
    ensures ExportMarker(EditRecord(m, Some(text), angle)) ==
      MarkerDoc(m.pos.lat, m.pos.lng, Some(m.kind), Some(Text.Trim(text)), Some(angle.GetOr(m.angle)))
  {
  }
}
