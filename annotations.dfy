/** The entities of the tactical map: markers, finished polylines and the line
    being drawn, with Leaflet layers replaced by plain records. */
module Annotations {
  import opened Base
  import Text

  /** A point of the image's pixel plane (Leaflet's `lat`/`lng` under `CRS.Simple`). */
  datatype Point = Point(lat: real, lng: real)

  /** One entry of `currentMarkers` (`kind` is its `type`, `caption` its `label`): `id` stands for the identity of its Leaflet
      marker, `pos` for that marker's position. */
  datatype Marker = Marker(id: nat, pos: Point, kind: string, caption: string, angle: int)

  /** One entry of `currentPolylines`. */
  datatype Polyline = Polyline(kind: string, points: seq<Point>)

  /** The in-progress `drawing`. */
  datatype Session = Session(kind: string, points: seq<Point>)

  /** `type||"self"`. */
  function OrSelf(kind: Option<string>): string {
    if kind.None? || kind.value == "" then "self" else kind.value
  }

  /** The record `addArrowMarker` pushes: missing or empty type becomes "self", a
      missing label "" and a missing angle 0; everything given is kept. */
  function ArrowMarker(id: nat, pos: Point, kind: Option<string>, caption: Option<string>, angle: Option<int>): (m: Marker)
    ensures m.id == id && m.pos == pos && m.kind != ""
    ensures kind.Some? && kind.value != "" ==> m.kind == kind.value
    ensures caption.Some? ==> m.caption == caption.value
    ensures angle.Some? ==> m.angle == angle.value
    ensures kind.None? || kind.value == "" ==> m.kind == "self"
    ensures caption.None? ==> m.caption == ""
    ensures angle.None? ==> m.angle == 0
  {
    Marker(id, pos, OrSelf(kind), caption.GetOr(""), angle.GetOr(0))
  }

  predicate DistinctIds(ms: seq<Marker>) {
    forall i, j :: 0 <= i < j < |ms| ==> ms[i].id != ms[j].id
  }

  /** `currentMarkers.filter(x => x.m !== m)`. */
  function RemoveId(ms: seq<Marker>, id: nat): seq<Marker>
    decreases |ms|
  {
    if ms == [] then []
    else
      var init := RemoveId(ms[..|ms| - 1], id);
      var last := ms[|ms| - 1];
      if last.id == id then init else init + [last]
  }

  /** Deleting keeps exactly the markers of another identity. */
  lemma {:induction false} RemoveIdMembers(ms: seq<Marker>, id: nat)
    ensures forall m :: m in RemoveId(ms, id) <==> m in ms && m.id != id
    decreases |ms|
  {
    if ms != [] {
      RemoveIdMembers(ms[..|ms| - 1], id);
      assert forall m :: m in ms <==> m in ms[..|ms| - 1] || m == ms[|ms| - 1];
    }
  }

  /** Filtering out an identity no marker has changes nothing. */
  lemma {:induction false} RemoveIdAbsent(ms: seq<Marker>, id: nat)
    requires forall i :: 0 <= i < |ms| ==> ms[i].id != id
    ensures RemoveId(ms, id) == ms
    decreases |ms|
  {
    if ms != [] {
      RemoveIdAbsent(ms[..|ms| - 1], id);
      assert ms[..|ms| - 1] + [ms[|ms| - 1]] == ms;
    }
  }

  /** With unique identities, deleting the marker at `k` removes exactly that entry
      and keeps the others in their order. */
  lemma {:induction false} RemoveIdAt(ms: seq<Marker>, k: nat)
    requires DistinctIds(ms) && k < |ms|
    ensures RemoveId(ms, ms[k].id) == ms[..k] + ms[k + 1..]
    decreases |ms|
  {
    var init, last, id := ms[..|ms| - 1], ms[|ms| - 1], ms[k].id;
    assert RemoveId(ms, id) == if last.id == id then RemoveId(init, id) else RemoveId(init, id) + [last];
    if k == |ms| - 1 {
      assert forall i :: 0 <= i < |init| ==> init[i].id != id by {
        forall i | 0 <= i < |init| ensures init[i].id != id {
          assert init[i] == ms[i];
        }
      }
      RemoveIdAbsent(init, id);
      assert ms[k + 1..] == [];
    } else {
      assert last.id != id;
      assert init[k] == ms[k];
      assert DistinctIds(init) by {
        forall i, j | 0 <= i < j < |init| ensures init[i].id != init[j].id {
          assert init[i] == ms[i] && init[j] == ms[j];
        }
      }
      RemoveIdAt(init, k);
      assert init[..k] == ms[..k];
      assert init[k + 1..] + [last] == ms[k + 1..];
    }
  }

  /** Deleting keeps identities unique. */
  lemma {:induction false} RemoveIdDistinct(ms: seq<Marker>, id: nat)
    requires DistinctIds(ms)
    ensures DistinctIds(RemoveId(ms, id))
    decreases |ms|
  {
    if ms != [] {
      var init, last := ms[..|ms| - 1], ms[|ms| - 1];
      assert DistinctIds(init) by {
        forall i, j | 0 <= i < j < |init| ensures init[i].id != init[j].id {
          assert init[i] == ms[i] && init[j] == ms[j];
        }
      }
      RemoveIdDistinct(init, id);
      RemoveIdMembers(init, id);
      var r := RemoveId(init, id);
      forall i | 0 <= i < |r| ensures r[i].id != last.id {
        assert r[i] in init;
        var k :| 0 <= k < |init| && init[k] == r[i];
        assert ms[k] == r[i];
      }
    }
  }

  /** Everything deleting by identity promises, for a list with unique identities. */
  lemma RemoveIdSpec(ms: seq<Marker>, id: nat)
    requires DistinctIds(ms)
    ensures var r := RemoveId(ms, id);
      && DistinctIds(r)
      && (forall m :: m in r <==> m in ms && m.id != id)
      && (forall k :: 0 <= k < |ms| && ms[k].id == id ==> r == ms[..k] + ms[k + 1..])
      && ((forall k :: 0 <= k < |ms| ==> ms[k].id != id) ==> r == ms)
  {
    forall k | 0 <= k < |ms| && ms[k].id == id
      ensures RemoveId(ms, id) == ms[..k] + ms[k + 1..]
    {
      RemoveIdAt(ms, k);
    }
    if forall k :: 0 <= k < |ms| ==> ms[k].id != id {
      RemoveIdAbsent(ms, id);
    }
    RemoveIdDistinct(ms, id);
    RemoveIdMembers(ms, id);
  }

  /** A drag ending at `p`: the marker with that identity moves, nothing else changes. */
  function MoveById(ms: seq<Marker>, id: nat, p: Point): (r: seq<Marker>)
    ensures |r| == |ms|
    ensures forall i :: 0 <= i < |ms| ==>
      r[i] == if ms[i].id == id then ms[i].(pos := p) else ms[i]
  {
    seq(|ms|, i requires 0 <= i < |ms| => if ms[i].id == id then ms[i].(pos := p) else ms[i])
  }

  /** The label/heading edit applied to the marker's record: a cancelled label
      prompt (`None`) aborts the whole edit; otherwise the label is the trimmed
      answer and the heading the second answer, unless that one was cancelled. */
  function EditRecord(m: Marker, text: Option<string>, angle: Option<int>): (r: Marker)
    ensures r.id == m.id && r.pos == m.pos && r.kind == m.kind
    ensures text.None? ==> r == m
    ensures text.Some? ==> r.caption == Text.Trim(text.value)
    ensures text.Some? && angle.None? ==> r.angle == m.angle
    ensures text.Some? && angle.Some? ==> r.angle == angle.value
  {
    if text.None? then m
    else m.(caption := Text.Trim(text.value), angle := angle.GetOr(m.angle))
  }

  /** The edit applied to every marker with identity `id`. */
  function EditById(ms: seq<Marker>, id: nat, text: Option<string>, angle: Option<int>): (r: seq<Marker>)
    ensures |r| == |ms|
    ensures forall i :: 0 <= i < |ms| ==>
      r[i] == if ms[i].id == id then EditRecord(ms[i], text, angle) else ms[i]
  {
    seq(|ms|, i requires 0 <= i < |ms| => if ms[i].id == id then EditRecord(ms[i], text, angle) else ms[i])
  }

  /** A placed marker as script.js keeps it: the record pushed into
      `currentMarkers`, and the Leaflet marker's own `_label` and `_angle`. */
  datatype PlacedMarker = PlacedMarker(rec: Marker, layerLabel: string, layerAngle: int)

  /** The label/heading edit as script.js writes it: only `m._label` and `m._angle`
      change; the record in `currentMarkers` keeps its old label and angle. */
  function EditAsWritten(p: PlacedMarker, text: Option<string>, angle: Option<int>): (q: PlacedMarker)
    ensures q.rec == p.rec
    ensures text.Some? ==> q.layerLabel == Text.Trim(text.value)
  {
    if text.None? then p
    else p.(layerLabel := Text.Trim(text.value), layerAngle := angle.GetOr(p.layerAngle))
  }
}
