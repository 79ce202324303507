/** The tactical map of script.js: module-level marker and line lists, the line
    mode and drawing session, the background image, the auto-saved active plan and
    the named plan library, with Leaflet layers and browser storage replaced by
    plain values. */
module TacticalMap {
  import opened Base
  import opened Annotations
  import opened PlanCodec
  import Text

  /** `if(drawType)`: a line mode is on when a non-empty line type is selected. */
  predicate LineMode(drawType: Option<string>) {
    drawType.Some? && drawType.value != ""
  }

  /** `loadPlanIndex()`: a missing or unparsable library reads as `{}`. */
  function LoadIndex(slot: Stored<map<string, PlanDoc>>): map<string, PlanDoc> {
    if slot.Parsed? then slot.value else map[]
  }

  /** How the load button ends. */
  datatype LoadOutcome = NoPlans | NotPicked | Loaded(name: string)

  class MapState {
    var markers: seq<Marker>            // currentMarkers
    var polylines: seq<Polyline>        // currentPolylines
    var currentType: string             // marker type of the palette
    var drawType: Option<string>        // selected line type, or null
    var drawing: Option<Session>        // in-progress line, or null
    var imageUrl: string                // the image overlay's URL ("" for none)
    var imageSize: (int, int)           // currentImageSize as (width, height)
    var nextId: nat                     // identity for the next placed marker
    var storedActive: Stored<Option<PlanDoc>>          // storage under the active-plan key
    var storedPlans: Stored<map<string, PlanDoc>>      // storage under the plan-library key

    /** Marker identities are unique and below `nextId`; every marker carries the
        defaults `addArrowMarker` gives; a drawing session always has a point. */
    ghost predicate Valid()
      reads this
    {
      && DistinctIds(markers)
      && (forall i :: 0 <= i < |markers| ==> markers[i].id < nextId && markers[i].kind != "")
      && (drawing.Some? ==> |drawing.value.points| >= 1)
    }

    /** `exportPlan()`. */
    function Export(): PlanDoc
      reads this
    {
      PlanCodec.Export(imageUrl, imageSize, markers, polylines)
    }

    /** The state before the map is first shown: no markers or lines, marker type
        "self", no line mode, a 1000 x 1000 plane without image. */
    constructor (active: Stored<Option<PlanDoc>>, plans: Stored<map<string, PlanDoc>>)
      ensures Valid()
      ensures markers == [] && polylines == [] && drawing == None && drawType == None
      ensures currentType == "self" && imageUrl == "" && imageSize == (1000, 1000)
      ensures storedActive == active && storedPlans == plans
    {
      markers, polylines := [], [];
      currentType, drawType, drawing := "self", None, None;
      imageUrl, imageSize := "", (1000, 1000);
      nextId := 0;
      storedActive, storedPlans := active, plans;
    }

    /** `saveMapState()`: the active-plan key holds the current export. */
    method SaveMapState()
      modifies this`storedActive
      ensures storedActive == Parsed(Some(Export()))
    {
      storedActive := Parsed(Some(Export()));
    }

    /** `addArrowMarker`: appends one record with the defaults applied and a new
        identity. */
    method AddArrowMarker(pos: Point, kind: Option<string>, caption: Option<string>, angle: Option<int>)
      requires Valid()
      modifies this`markers, this`nextId
      ensures Valid()
      ensures markers == old(markers) + [ArrowMarker(old(nextId), pos, kind, caption, angle)]
      ensures nextId == old(nextId) + 1
    {
      markers := markers + [ArrowMarker(nextId, pos, kind, caption, angle)];
      nextId := nextId + 1;
    }

    /** The map click. In line mode: without a session, a session of the current
        line type with this one point; with one, the point appended at its end. In
        marker mode: one marker of the palette type, empty label, angle 0. The lines
        are never touched, and the result is auto-saved. */
    method Click(pos: Point)
      requires Valid()
      modifies this`markers, this`nextId, this`drawing, this`storedActive
      ensures Valid()
      ensures storedActive == Parsed(Some(Export()))
      ensures LineMode(drawType) && old(drawing).None? ==>
        drawing == Some(Session(drawType.value, [pos])) && markers == old(markers)
      ensures LineMode(drawType) && old(drawing).Some? ==>
        drawing == Some(old(drawing).value.(points := old(drawing).value.points + [pos]))
        && markers == old(markers)
      ensures !LineMode(drawType) ==>
        markers == old(markers) + [ArrowMarker(old(nextId), pos, Some(currentType), Some(""), Some(0))]
        && drawing == old(drawing)
    {
      if LineMode(drawType) {
        if drawing.None? {
          drawing := Some(Session(drawType.value, [pos]));
        } else {
          drawing := Some(drawing.value.(points := drawing.value.points + [pos]));
        }
        SaveMapState();
        return;
      }
      AddArrowMarker(pos, Some(currentType), Some(""), Some(0));
      SaveMapState();
    }

    /** A marker palette chip. */
    method SelectMarkerType(t: string)
      modifies this`currentType
      ensures currentType == t
    {
      currentType := t;
    }

    /** A line palette chip: the same type again turns line mode off, another type
        selects it. An open session is left as it is. */
    method ToggleLineType(t: string)
      modifies this`drawType
      ensures old(drawType) == Some(t) ==> drawType == None
      ensures old(drawType) != Some(t) ==> drawType == Some(t)
    {
      drawType := if drawType == Some(t) then None else Some(t);
    }

    /** The finish button: with no session or fewer than two points nothing changes;
        otherwise the session becomes the last polyline (its type and points) and
        is closed, so every line finished here has at least two points. */
    method FinishLine() returns (finished: bool)
      requires Valid()
      modifies this`polylines, this`drawing, this`storedActive
      ensures Valid()
      ensures finished <==> old(drawing).Some? && |old(drawing).value.points| >= 2
      ensures !finished ==> polylines == old(polylines) && drawing == old(drawing)
                            && storedActive == old(storedActive)
      ensures finished ==>
        polylines == old(polylines) + [Polyline(old(drawing).value.kind, old(drawing).value.points)]
        && |polylines[|polylines| - 1].points| >= 2
        && drawing == None && storedActive == Parsed(Some(Export()))
    {
      if drawing.None? || |drawing.value.points| < 2 {
        return false;
      }
      polylines := polylines + [Polyline(drawing.value.kind, drawing.value.points)];
      drawing := None;
      SaveMapState();
      finished := true;
    }

    /** The undo-point button: without a session nothing changes; otherwise the last
        point goes, and a session left without points is discarded. */
    method UndoPoint()
      requires Valid()
      modifies this`drawing, this`storedActive
      ensures Valid()
      ensures old(drawing).None? ==> drawing == None && storedActive == old(storedActive)
      ensures old(drawing).Some? ==> storedActive == Parsed(Some(Export()))
      ensures old(drawing).Some? && |old(drawing).value.points| == 1 ==> drawing == None
      ensures old(drawing).Some? && |old(drawing).value.points| > 1 ==>
        var s := old(drawing).value;
        drawing == Some(s.(points := s.points[..|s.points| - 1]))
    {
      if drawing.Some? && |drawing.value.points| > 0 {
        var s := drawing.value;
        drawing := Some(s.(points := s.points[..|s.points| - 1]));
        if |drawing.value.points| == 0 {
          drawing := None;
        }
        SaveMapState();
      }
    }

    /** The clear-lines button: when confirmed, drops every finished line and the
        open session. */
    method ClearLines(confirmed: bool)
      requires Valid()
      modifies this`drawing, this`polylines, this`storedActive
      ensures Valid()
      ensures confirmed ==> polylines == [] && drawing == None && storedActive == Parsed(Some(Export()))
      ensures !confirmed ==> polylines == old(polylines) && drawing == old(drawing)
                             && storedActive == old(storedActive)
    {
      if confirmed {
        drawing := None;
        polylines := [];
        SaveMapState();
      }
    }

    /** `clearMarkers()`. */
    method ClearMarkers()
      requires Valid()
      modifies this`markers
      ensures Valid() && markers == []
    {
      markers := [];
    }

    /** `clearAllLines()`: the finished lines only; an open session survives. */
    method ClearAllLines()
      modifies this`polylines
      ensures polylines == []
    {
      polylines := [];
    }

    /** The long press on a marker: the marker with that identity leaves the list,
        every other marker stays, in order. */
    method DeleteMarker(id: nat)
      requires Valid()
      modifies this`markers, this`storedActive
      ensures Valid()
      ensures storedActive == Parsed(Some(Export()))
      ensures forall m :: m in markers <==> m in old(markers) && m.id != id
      ensures forall k :: 0 <= k < |old(markers)| && old(markers)[k].id == id ==>
        markers == old(markers)[..k] + old(markers)[k + 1..]
      ensures (forall k :: 0 <= k < |old(markers)| ==> old(markers)[k].id != id) ==>
        markers == old(markers)
    {
      var ms := markers;
      RemoveIdSpec(ms, id);
      markers := RemoveId(ms, id);
      assert forall i :: 0 <= i < |markers| ==> markers[i] in ms;
      SaveMapState();
    }

    /** A drag ending at `pos`: that marker's position changes, nothing else. */
    method MoveMarker(id: nat, pos: Point)
      requires Valid()
      modifies this`markers, this`storedActive
      ensures Valid()
      ensures markers == MoveById(old(markers), id, pos)
      ensures storedActive == Parsed(Some(Export()))
    {
      markers := MoveById(markers, id, pos);
      SaveMapState();
    }

    /** The label/heading edit on a marker, applied to its record so that it is
        exported: a cancelled label prompt changes nothing; otherwise the edited
        marker exports with the trimmed label and the new heading. */
    method EditMarker(id: nat, text: Option<string>, angle: Option<int>)
      requires Valid()
      modifies this`markers, this`storedActive
      ensures Valid()
      ensures text.None? ==> markers == old(markers) && storedActive == old(storedActive)
      ensures text.Some? ==> storedActive == Parsed(Some(Export()))
      ensures text.Some? ==> markers == EditById(old(markers), id, text, angle)
      ensures |markers| == |old(markers)|
      ensures forall k :: 0 <= k < |markers| && old(markers)[k].id != id ==> markers[k] == old(markers)[k]
      ensures forall k :: 0 <= k < |markers| && old(markers)[k].id == id && text.Some? ==>
        var m := old(markers)[k];
        ExportMarkers(markers)[k]
          == MarkerDoc(m.pos.lat, m.pos.lng, Some(m.kind), Some(Text.Trim(text.value)), Some(angle.GetOr(m.angle)))
    {
      if text.None? {
        return;
      }
      ghost var ms := markers;
      markers := EditById(markers, id, text, angle);
      assert forall i :: 0 <= i < |markers| ==> markers[i].id == ms[i].id && markers[i].kind == ms[i].kind;
      forall k | 0 <= k < |markers| && ms[k].id == id
        ensures ExportMarkers(markers)[k]
          == MarkerDoc(ms[k].pos.lat, ms[k].pos.lng, Some(ms[k].kind), Some(Text.Trim(text.value)), Some(angle.GetOr(ms[k].angle)))
      {
        assert markers[k] == EditRecord(ms[k], text, angle);
      }
      SaveMapState();
    }

    /** A new background image of `width` x `height`: the plane is resized, markers
        and lines keep their coordinates, and the saved plan names the image. */
    method ReplaceImage(url: string, width: int, height: int)
      modifies this`imageUrl, this`imageSize, this`storedActive
      ensures imageUrl == url && imageSize == (width, height)
      ensures markers == old(markers) && polylines == old(polylines)
      ensures storedActive == Parsed(Some(Export().(image := Some(url))))
    {
      imageSize := (width, height);
      imageUrl := url;
      storedActive := Parsed(Some(Export().(image := Some(url))));
    }

    /** The clear-plan button: when confirmed, markers, lines and image go; the
        plane keeps its size and an open session survives. */
    method ClearPlan(confirmed: bool)
      requires Valid()
      modifies this`markers, this`polylines, this`imageUrl, this`storedActive
      ensures Valid()
      ensures confirmed ==> markers == [] && polylines == [] && imageUrl == ""
                            && storedActive == Parsed(Some(Export().(image := None)))
      ensures !confirmed ==> markers == old(markers) && polylines == old(polylines)
                             && imageUrl == old(imageUrl) && storedActive == old(storedActive)
    {
      if confirmed {
        ClearMarkers();
        ClearAllLines();
        imageUrl := "";
        storedActive := Parsed(Some(Export().(image := None)));
      }
    }

    /** `importPlan(data)`: the next export is `AfterImport` of the previous image
        and size and `data`. The session, modes and storage are untouched. */
    method Import(data: Option<PlanDoc>)
      requires Valid()
      modifies this`markers, this`polylines, this`nextId, this`imageUrl, this`imageSize
      ensures Valid()
      ensures Export() == AfterImport(old(imageUrl), old(imageSize), data)
    {
      ClearMarkers();
      ClearAllLines();
      if data.None? {
        return;
      }
      var d := data.value;
      imageSize := d.size.GetOr(imageSize);
      imageUrl := d.image.GetOr("");
      var ms := d.markers.GetOr([]);
      for i := 0 to |ms|
        invariant Valid()
        invariant ExportMarkers(markers) == NormalizeAll(ms[..i])
        invariant polylines == [] && imageUrl == d.image.GetOr("")
        invariant imageSize == d.size.GetOr(old(imageSize))
      {
        var it := ms[i];
        ghost var before := markers;
        AddArrowMarker(Point(it.lat, it.lng), it.kind, it.caption, Some(it.angle.GetOr(0)));
        assert markers[..|markers| - 1] == before;
        assert ms[..i + 1][..i] == ms[..i];
      }
      assert ms[..|ms|] == ms;
      var ls := d.lines.GetOr([]);
      ghost var placed := markers;
      for i := 0 to |ls|
        invariant polylines == ls[..i]
        invariant markers == placed && Valid()
        invariant imageUrl == d.image.GetOr("") && imageSize == d.size.GetOr(old(imageSize))
      {
        polylines := polylines + [Polyline(ls[i].kind, ls[i].points)];
      }
      assert ls[..|ls|] == ls;
    }

    /** `restoreMapState()`: a parsed active plan is imported; a missing or
        unparsable one leaves the empty map. */
    method Restore()
      requires Valid()
      modifies this`markers, this`polylines, this`nextId, this`imageUrl, this`imageSize
      ensures Valid()
      ensures storedActive.Parsed? ==>
        Export() == AfterImport(old(imageUrl), old(imageSize), storedActive.value)
      ensures !storedActive.Parsed? ==> unchanged(this)
    {
      if storedActive.Parsed? {
        Import(storedActive.value);
      }
    }

    /** The save-plan button: a name that is empty after trimming is rejected and
        the library is unchanged; otherwise the library (read as `{}` when missing
        or unparsable) gets the current export under the trimmed name, overwriting
        an earlier plan of that name, and every other name keeps its plan. */
    method SavePlan(nameInput: string) returns (saved: bool)
      modifies this`storedPlans
      ensures saved <==> Text.Trim(nameInput) != ""
      ensures !saved ==> storedPlans == old(storedPlans)
      ensures saved ==> storedPlans.Parsed?
      ensures saved ==> var name, all := Text.Trim(nameInput), storedPlans.value;
        && name in all && all[name] == Export()
        && forall n :: n != name ==>
             (n in all <==> n in LoadIndex(old(storedPlans)))
             && (n in all ==> all[n] == LoadIndex(old(storedPlans))[n])
    {
      var name := Text.Trim(nameInput);
      if name == "" {
        return false;
      }
      var all := LoadIndex(storedPlans);
      all := all[name := Export()];
      storedPlans := Parsed(all);
      saved := true;
    }

    /** The load-plan button: with an empty library nothing happens; a cancelled
        or unknown pick changes nothing; otherwise the picked plan is imported. */
    method LoadPlan(pick: Option<string>) returns (outcome: LoadOutcome)
      requires Valid()
      modifies this`markers, this`polylines, this`nextId, this`imageUrl, this`imageSize
      ensures Valid()
      ensures LoadIndex(storedPlans) == map[] ==> outcome == NoPlans && unchanged(this)
      ensures LoadIndex(storedPlans) != map[] && (pick.None? || pick.value == "" || pick.value !in LoadIndex(storedPlans)) ==>
        outcome == NotPicked && unchanged(this)
      ensures outcome.Loaded? ==>
        pick == Some(outcome.name) && outcome.name in LoadIndex(storedPlans)
        && Export() == AfterImport(old(imageUrl), old(imageSize), Some(LoadIndex(storedPlans)[outcome.name]))
      ensures LoadIndex(storedPlans) != map[] && pick.Some? && pick.value != "" && pick.value in LoadIndex(storedPlans) ==>
        outcome.Loaded?
    {
      var all := LoadIndex(storedPlans);
      if all == map[] {
        return NoPlans;
      }
      if pick.None? || pick.value == "" || pick.value !in all {
        return NotPicked;
      }
      Import(Some(all[pick.value]));
      outcome := Loaded(pick.value);
    }
  }
}
