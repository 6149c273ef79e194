/**
 Data model and reference semantics of one cycle of the vision loop in
 utils/object_detection.py: the detections the engine returns, the label table,
 the events a cycle publishes (the `nb_boxes`, `boxes` and `boxes_names`
 network-table entries and the `MLOut` video stream), and what one cycle and a
 run of cycles publish.
 */
module Detections {

  datatype Option<T> = None | Some(value: T)

  /** An axis-aligned box in pixel coordinates, as `bounding_box.flatten()` lists
      it: top-left (x1, y1), then bottom-right (x2, y2). The coordinates are only
      copied, never computed with. */
  datatype Box = Box(x1: real, y1: real, x2: real, y2: real)

  /** One detection of the engine. Its score is only printed and is not modelled. */
  datatype Detection = Detection(labelId: int, box: Box)

  /** A label table: class id to class name. */
  type LabelMap = map<int, string>

  /** The table `main` builds: 0 is a hatch, 1 is cargo. */
  const Labels: LabelMap := map[0 := "hatch", 1 := "cargo"]

  /** A frame pushed to the video stream: the captured image as it is, or the
      captured image with rectangles outlined on it, in drawing order. */
  datatype Frame = Raw | Annotated(rects: seq<Box>)

  /** One publish call. */
  datatype Event =
    | NbBoxes(n: nat)                 // nb_boxes_entry.setNumber
    | PutFrame(frame: Frame)          // output.putFrame
    | BoxesArray(coords: seq<real>)   // boxes_entry.setDoubleArray
    | NamesArray(names: seq<string>)  // boxes_names_entry.setStringArray

  /** How a cycle ends: normally, or with the KeyError of a class id missing from
      the label table, which nothing in `main` catches. */
  datatype Outcome = Completed | KeyError(labelId: int)

  /** What a cycle (or a run of cycles) published, in order, and how it ended. */
  datatype CycleResult = CycleResult(events: seq<Event>, outcome: Outcome)

  /** The four numbers of a box, in the order the `boxes` entry carries them. */
  function Flatten(b: Box): seq<real>
  {
    [b.x1, b.y1, b.x2, b.y2]
  }

  /** All boxes of `dets`, flattened and concatenated in detection order. */
  function FlatBoxes(dets: seq<Detection>): seq<real>
  {
    if dets == [] then [] else FlatBoxes(dets[..|dets| - 1]) + Flatten(dets[|dets| - 1].box)
  }

  /** The boxes of `dets`, in detection order. */
  function Rects(dets: seq<Detection>): seq<Box>
  {
    if dets == [] then [] else Rects(dets[..|dets| - 1]) + [dets[|dets| - 1].box]
  }

  /** Every class id of `dets` is a key of `labels`. */
  predicate Labelled(dets: seq<Detection>, labels: LabelMap)
  {
    forall i :: 0 <= i < |dets| ==> dets[i].labelId in labels
  }

  /** The names of `dets` in detection order; an empty table contributes none
      (the `if labels:` guard). */
  function NameList(dets: seq<Detection>, labels: LabelMap): seq<string>
    requires labels != map[] ==> Labelled(dets, labels)
  {
    if dets == [] || labels == map[] then []
    else NameList(dets[..|dets| - 1], labels) + [labels[dets[|dets| - 1].labelId]]
  }

  /** The frames a cycle puts while it goes through `dets`: after the k-th
      detection, the frame with the first k rectangles drawn. */
  function AnnotatedFrames(dets: seq<Detection>): seq<Event>
  {
    if dets == [] then [] else AnnotatedFrames(dets[..|dets| - 1]) + [PutFrame(Annotated(Rects(dets)))]
  }

  /** The index of the first detection whose class id the (non-empty) table
      lacks: where the lookup raises KeyError. */
  function FirstMissing(dets: seq<Detection>, labels: LabelMap): (r: Option<nat>)
    ensures r.None? <==> labels == map[] || Labelled(dets, labels)
    ensures r.Some? ==> labels != map[] && r.value < |dets| && dets[r.value].labelId !in labels
    ensures r.Some? ==> Labelled(dets[..r.value], labels)
  {
    if labels == map[] || dets == [] then None
    else if dets[0].labelId !in labels then Some(0)
    else match FirstMissing(dets[1..], labels)
      case None =>
        assert dets == [dets[0]] + dets[1..];
        None
      case Some(i) =>
        assert dets[..i + 1] == [dets[0]] + dets[1..][..i];
        Some(i + 1)
  }

  /** One cycle, from the moment the engine has returned `dets`: the count, then
      the raw frame (no detection) or one annotated frame per detection, then the
      boxes and the names. A missing class id ends the cycle at that detection,
      before its frame is put and before any array is published. */
  function Cycle(dets: seq<Detection>, labels: LabelMap): (r: CycleResult)
    ensures |r.events| > 0 && r.events[0] == NbBoxes(|dets|)
  {
    if dets == [] then
      CycleResult([NbBoxes(0), PutFrame(Raw), BoxesArray([]), NamesArray([])], Completed)
    else match FirstMissing(dets, labels)
      case Some(i) =>
        CycleResult([NbBoxes(|dets|)] + AnnotatedFrames(dets[..i]), KeyError(dets[i].labelId))
      case None =>
        CycleResult([NbBoxes(|dets|)] + AnnotatedFrames(dets)
                     + [BoxesArray(FlatBoxes(dets)), NamesArray(NameList(dets, labels))], Completed)
  }

  /** Cycle results one after another: their events concatenated, up to and
      including the first cycle that raises KeyError, which ends the program. */
  function Chain(rs: seq<CycleResult>): CycleResult
  {
    if rs == [] then CycleResult([], Completed)
    else if rs[0].outcome.KeyError? then rs[0]
    else
      var rest := Chain(rs[1..]);
      CycleResult(rs[0].events + rest.events, rest.outcome)
  }

  /** What each cycle would publish on its own, one per entry of `cycles` (the
      engine's answer for each captured frame). */
  function Results(cycles: seq<seq<Detection>>, labels: LabelMap): seq<CycleResult>
  {
    seq(|cycles|, i requires 0 <= i < |cycles| => Cycle(cycles[i], labels))
  }

  /** Cycles run one after another until a cycle raises KeyError. */
  function Run(cycles: seq<seq<Detection>>, labels: LabelMap): CycleResult
  {
    Chain(Results(cycles, labels))
  }

  /** The frames among `events`, in publishing order. */
  function Frames(events: seq<Event>): seq<Frame>
  {
    if events == [] then []
    else Frames(events[..|events| - 1])
         + (if events[|events| - 1].PutFrame? then [events[|events| - 1].frame] else [])
  }

  // ---------------------------------------------------------------------------
  // Layout of the published arrays

  /** `boxes` holds four numbers per detection, and numbers 4i..4i+3 are
      detection i's box, in engine order. */
  lemma {:induction false} FlatBoxesLayout(dets: seq<Detection>)
    ensures |FlatBoxes(dets)| == 4 * |dets|
    ensures forall i :: 0 <= i < |dets| ==> FlatBoxes(dets)[4 * i .. 4 * i + 4] == Flatten(dets[i].box)
  {
    if dets != [] {
      var n := |dets| - 1;
      var front := dets[..n];
      FlatBoxesLayout(front);
      forall i | 0 <= i < |dets|
        ensures FlatBoxes(dets)[4 * i .. 4 * i + 4] == Flatten(dets[i].box)
      {
        if i < n {
          assert front[i] == dets[i];
          assert FlatBoxes(dets)[4 * i .. 4 * i + 4] == FlatBoxes(front)[4 * i .. 4 * i + 4];
        } else {
          assert FlatBoxes(dets)[4 * i .. 4 * i + 4] == Flatten(dets[n].box);
        }
      }
    }
  }

  /** The rectangle list has one box per detection, in detection order. */
  lemma {:induction false} RectsLayout(dets: seq<Detection>)
    ensures |Rects(dets)| == |dets|
    ensures forall i :: 0 <= i < |dets| ==> Rects(dets)[i] == dets[i].box
  {
    if dets != [] {
      var front := dets[..|dets| - 1];
      RectsLayout(front);
      assert forall i :: 0 <= i < |front| ==> front[i] == dets[i];
    }
  }

  /** With a non-empty table and every id known, `boxes_names` holds one name per
      detection, and name i is the label of detection i. */
  lemma {:induction false} NameListLayout(dets: seq<Detection>, labels: LabelMap)
    requires labels != map[] && Labelled(dets, labels)
    ensures |NameList(dets, labels)| == |dets|
    ensures forall i :: 0 <= i < |dets| ==> NameList(dets, labels)[i] == labels[dets[i].labelId]
  {
    if dets != [] {
      var front := dets[..|dets| - 1];
      assert forall i :: 0 <= i < |front| ==> front[i] == dets[i];
      NameListLayout(front, labels);
    }
  }

  /** The k-th annotated frame (counting from 1) carries the boxes of the first k
      detections. */
  lemma {:induction false} AnnotatedFramesLayout(dets: seq<Detection>)
    ensures |AnnotatedFrames(dets)| == |dets|
    ensures forall k :: 0 <= k < |dets| ==> AnnotatedFrames(dets)[k] == PutFrame(Annotated(Rects(dets[..k + 1])))
  {
    if dets != [] {
      var front := dets[..|dets| - 1];
      AnnotatedFramesLayout(front);
      forall k | 0 <= k < |dets|
        ensures AnnotatedFrames(dets)[k] == PutFrame(Annotated(Rects(dets[..k + 1])))
      {
        if k < |front| {
          assert front[..k + 1] == dets[..k + 1];
        } else {
          assert dets[..k + 1] == dets;
        }
      }
    }
  }

  /** Frames of a sequence grown by one event. */
  lemma FramesSnoc(a: seq<Event>, e: Event)
    ensures Frames(a + [e]) == Frames(a) + if e.PutFrame? then [e.frame] else []
  {
    assert (a + [e])[..|a|] == a;
  }

  /** Frames of a concatenation. */
  lemma {:induction false} FramesAppend(a: seq<Event>, b: seq<Event>)
    ensures Frames(a + b) == Frames(a) + Frames(b)
  {
    if b != [] {
      var front := b[..|b| - 1];
      FramesAppend(a, front);
      assert a + b == (a + front) + [b[|b| - 1]];
      FramesSnoc(a + front, b[|b| - 1]);
      assert b == front + [b[|b| - 1]];
      FramesSnoc(front, b[|b| - 1]);
    } else {
      assert a + b == a;
    }
  }

  /** The frames of the annotated-frame events are those frames, one for one. */
  lemma {:induction false} FramesOfAnnotated(dets: seq<Detection>)
    ensures |Frames(AnnotatedFrames(dets))| == |dets|
    ensures forall k :: 0 <= k < |dets| ==> Frames(AnnotatedFrames(dets))[k] == Annotated(Rects(dets[..k + 1]))
  {
    if dets != [] {
      var front := dets[..|dets| - 1];
      FramesOfAnnotated(front);
      FramesSnoc(AnnotatedFrames(front), PutFrame(Annotated(Rects(dets))));
      forall k | 0 <= k < |dets|
        ensures Frames(AnnotatedFrames(dets))[k] == Annotated(Rects(dets[..k + 1]))
      {
        if k < |front| {
          assert front[..k + 1] == dets[..k + 1];
        } else {
          assert dets[..k + 1] == dets;
        }
      }
    }
  }

  /** How the functions above grow when one more detection is taken. */
  lemma PrefixStep(dets: seq<Detection>, labels: LabelMap, i: nat)
    requires i < |dets|
    ensures FlatBoxes(dets[..i + 1]) == FlatBoxes(dets[..i]) + Flatten(dets[i].box)
    ensures Rects(dets[..i + 1]) == Rects(dets[..i]) + [dets[i].box]
    ensures AnnotatedFrames(dets[..i + 1]) == AnnotatedFrames(dets[..i]) + [PutFrame(Annotated(Rects(dets[..i + 1])))]
    ensures labels == map[] ==> NameList(dets[..i + 1], labels) == []
    ensures labels != map[] && Labelled(dets[..i], labels) && dets[i].labelId in labels ==>
              Labelled(dets[..i + 1], labels)
              && NameList(dets[..i + 1], labels) == NameList(dets[..i], labels) + [labels[dets[i].labelId]]
  {
    assert dets[..i + 1][..i] == dets[..i];
    assert dets[..i + 1] == dets[..i] + [dets[i]];
  }

  // ---------------------------------------------------------------------------
  // One cycle

  /** A cycle completes exactly when no lookup can fail: the table is empty or
      knows every class id; otherwise it ends with the KeyError of the first
      unknown id. */
  lemma CycleOutcome(dets: seq<Detection>, labels: LabelMap)
    ensures Cycle(dets, labels).outcome == Completed <==> labels == map[] || Labelled(dets, labels)
    ensures Cycle(dets, labels).outcome.KeyError? ==>
              exists i :: 0 <= i < |dets| && Labelled(dets[..i], labels) && dets[i].labelId !in labels
                          && Cycle(dets, labels).outcome == KeyError(dets[i].labelId)
  {
  }

  /** Publishing order of a cycle that completes: the count first, then only
      frames, then `boxes`, then `boxes_names`; the arrays hold the boxes and
      names of this cycle's detections. */
  lemma CycleOrder(dets: seq<Detection>, labels: LabelMap)
    requires labels == map[] || Labelled(dets, labels)
    ensures Cycle(dets, labels).outcome == Completed
    ensures var e := Cycle(dets, labels).events;
            |e| == 3 + (if dets == [] then 1 else |dets|)
            && e[0] == NbBoxes(|dets|)
            && (forall k :: 1 <= k < |e| - 2 ==> e[k].PutFrame?)
            && e[|e| - 2] == BoxesArray(FlatBoxes(dets))
            && e[|e| - 1] == NamesArray(NameList(dets, labels))
  {
    if dets != [] {
      AnnotatedFramesLayout(dets);
    }
  }

  /** With no detection the raw frame is put exactly once, and empty arrays are
      published. */
  lemma EmptyCycle(labels: LabelMap)
    ensures Cycle([], labels).outcome == Completed
    ensures Frames(Cycle([], labels).events) == [Raw]
    ensures BoxesArray([]) in Cycle([], labels).events && NamesArray([]) in Cycle([], labels).events
  {
    var e1 := [NbBoxes(0)];
    var e2 := e1 + [PutFrame(Raw)];
    var e3 := e2 + [BoxesArray([])];
    var e4 := e3 + [NamesArray([])];
    assert e1 == [] + [NbBoxes(0)];
    FramesSnoc([], NbBoxes(0));
    FramesSnoc(e1, PutFrame(Raw));
    FramesSnoc(e2, BoxesArray([]));
    FramesSnoc(e3, NamesArray([]));
    assert e4 == Cycle([], labels).events;
  }

  /** A cycle over detections that completes puts the annotated frame once per
      detection, the k-th carrying the first k boxes, and never the raw frame. */
  lemma CompletedFrames(dets: seq<Detection>, labels: LabelMap)
    requires dets != [] && Cycle(dets, labels).outcome == Completed
    ensures var f := Frames(Cycle(dets, labels).events);
            |f| == |dets|
            && (forall k :: 0 <= k < |dets| ==> f[k] == Annotated(Rects(dets[..k + 1])))
            && Raw !in f
  {
    var head := [NbBoxes(|dets|)];
    var tail := [BoxesArray(FlatBoxes(dets)), NamesArray(NameList(dets, labels))];
    FramesSnoc([], NbBoxes(|dets|));
    FramesSnoc([], BoxesArray(FlatBoxes(dets)));
    FramesSnoc([BoxesArray(FlatBoxes(dets))], NamesArray(NameList(dets, labels)));
    FramesOfAnnotated(dets);
    FramesAppend(head, AnnotatedFrames(dets));
    FramesAppend(head + AnnotatedFrames(dets), tail);
  }

  /** A cycle that raises KeyError at detection i has put the annotated frame
      once for each of the i detections before it, and never the raw frame. */
  lemma AbortedFrames(dets: seq<Detection>, labels: LabelMap)
    requires Cycle(dets, labels).outcome.KeyError?
    ensures var f := Frames(Cycle(dets, labels).events);
            var i := FirstMissing(dets, labels).value;
            |f| == i
            && (forall k :: 0 <= k < i ==> f[k] == Annotated(Rects(dets[..k + 1])))
            && Raw !in f
  {
    var i := FirstMissing(dets, labels).value;
    var shown := dets[..i];
    FramesSnoc([], NbBoxes(|dets|));
    FramesOfAnnotated(shown);
    FramesAppend([NbBoxes(|dets|)], AnnotatedFrames(shown));
    forall k | 0 <= k < i
      ensures Frames(Cycle(dets, labels).events)[k] == Annotated(Rects(dets[..k + 1]))
    {
      assert shown[..k + 1] == dets[..k + 1];
    }
  }

  /** A cycle that raises KeyError publishes neither `boxes` nor `boxes_names`. */
  lemma AbortedCycle(dets: seq<Detection>, labels: LabelMap)
    requires Cycle(dets, labels).outcome.KeyError?
    ensures forall e :: e in Cycle(dets, labels).events ==> !e.BoxesArray? && !e.NamesArray?
  {
    var i := FirstMissing(dets, labels).value;
    AnnotatedFramesLayout(dets[..i]);
  }

  /** The lookup fails at the first unknown id and nowhere else. */
  lemma FirstMissingAt(dets: seq<Detection>, labels: LabelMap, i: nat)
    requires labels != map[] && i < |dets|
    requires Labelled(dets[..i], labels) && dets[i].labelId !in labels
    ensures FirstMissing(dets, labels) == Some(i)
  {
  }

  /** When detection i is the first with an unknown id, the cycle has published
      the count and the first i annotated frames, and ends with that id's KeyError. */
  lemma CycleStopsAt(dets: seq<Detection>, labels: LabelMap, i: nat)
    requires labels != map[] && i < |dets|
    requires Labelled(dets[..i], labels) && dets[i].labelId !in labels
    ensures Cycle(dets, labels) == CycleResult([NbBoxes(|dets|)] + AnnotatedFrames(dets[..i]), KeyError(dets[i].labelId))
  {
    FirstMissingAt(dets, labels, i);
  }

  // ---------------------------------------------------------------------------
  // The deployed label table

  /** With the deployed table a cycle completes exactly when every class id is 0
      or 1, and then name i is "hatch" for id 0 and "cargo" for id 1. */
  lemma DeployedTable(dets: seq<Detection>)
    ensures Cycle(dets, Labels).outcome == Completed <==>
              forall i :: 0 <= i < |dets| ==> 0 <= dets[i].labelId <= 1
    ensures (forall i :: 0 <= i < |dets| ==> 0 <= dets[i].labelId <= 1) ==>
              |NameList(dets, Labels)| == |dets|
              && forall i :: 0 <= i < |dets| ==>
                   NameList(dets, Labels)[i] == if dets[i].labelId == 0 then "hatch" else "cargo"
  {
    assert Labels != map[] by { assert 0 in Labels; }
    assert Labels[0] == "hatch" && Labels[1] == "cargo";
    assert Labelled(dets, Labels) <==> forall i :: 0 <= i < |dets| ==> 0 <= dets[i].labelId <= 1;
    CycleOutcome(dets, Labels);
    if Labelled(dets, Labels) {
      NameListLayout(dets, Labels);
    }
  }

  /** One hatch at (10, 10)-(50, 50): count 1, that box, the name "hatch". */
  lemma OneHatch()
    ensures var b := Box(10.0, 10.0, 50.0, 50.0);
            Cycle([Detection(0, b)], Labels) ==
              CycleResult([NbBoxes(1), PutFrame(Annotated([b])),
                           BoxesArray([10.0, 10.0, 50.0, 50.0]), NamesArray(["hatch"])], Completed)
  {
    var b := Box(10.0, 10.0, 50.0, 50.0);
    var d := [Detection(0, b)];
    assert d[..0] == [] && d[1..] == [];
    assert 0 in Labels;
    assert FirstMissing(d, Labels) == None;
    assert FlatBoxes(d) == [10.0, 10.0, 50.0, 50.0];
    assert Rects(d) == [b];
    assert AnnotatedFrames(d) == [PutFrame(Annotated([b]))];
    assert NameList(d, Labels) == ["hatch"];
  }

  /** Detections of class 1 then class 0 keep the engine order: "cargo", "hatch". */
  lemma CargoThenHatch(b1: Box, b0: Box)
    ensures var c := Cycle([Detection(1, b1), Detection(0, b0)], Labels);
            c.outcome == Completed && c.events[|c.events| - 1] == NamesArray(["cargo", "hatch"])
  {
    var d := [Detection(1, b1), Detection(0, b0)];
    DeployedTable(d);
    CycleOrder(d, Labels);
    NameListLayout(d, Labels);
  }

  // ---------------------------------------------------------------------------
  // Runs of cycles

  /** Chaining after a completed run: the second run follows it. */
  lemma {:induction false} ChainAppend(rs: seq<CycleResult>, ss: seq<CycleResult>)
    requires Chain(rs).outcome == Completed
    ensures Chain(rs + ss) == CycleResult(Chain(rs).events + Chain(ss).events, Chain(ss).outcome)
  {
    if rs == [] {
      assert rs + ss == ss;
    } else {
      assert (rs + ss)[0] == rs[0] && (rs + ss)[1..] == rs[1..] + ss;
      ChainAppend(rs[1..], ss);
      var e0, e1, e2 := rs[0].events, Chain(rs[1..]).events, Chain(ss).events;
      assert e0 + (e1 + e2) == (e0 + e1) + e2;
    }
  }

  /** Chaining after a run that raised KeyError: nothing more runs. */
  lemma {:induction false} ChainAfterError(rs: seq<CycleResult>, ss: seq<CycleResult>)
    requires Chain(rs).outcome.KeyError?
    ensures Chain(rs + ss) == Chain(rs)
  {
    assert rs != [];
    assert (rs + ss)[0] == rs[0] && (rs + ss)[1..] == rs[1..] + ss;
    if rs[0].outcome == Completed {
      ChainAfterError(rs[1..], ss);
    }
  }

  /** Each cycle publishes from scratch: what a further cycle publishes depends
      on that cycle's detections alone, and a cycle after a KeyError never runs. */
  lemma RunAppend(cs: seq<seq<Detection>>, ds: seq<seq<Detection>>, labels: LabelMap)
    ensures Run(cs + ds, labels) ==
              if Run(cs, labels).outcome == Completed
              then CycleResult(Run(cs, labels).events + Run(ds, labels).events, Run(ds, labels).outcome)
              else Run(cs, labels)
  {
    var rs, ss := Results(cs, labels), Results(ds, labels);
    assert Results(cs + ds, labels) == rs + ss;
    if Chain(rs).outcome == Completed {
      ChainAppend(rs, ss);
    } else {
      ChainAfterError(rs, ss);
    }
  }

  /** A run of one cycle is that cycle. */
  lemma RunOne(d: seq<Detection>, labels: LabelMap)
    ensures Run([d], labels) == Cycle(d, labels)
  {
    var c := Cycle(d, labels);
    var rs := Results([d], labels);
    assert rs == [c] && rs[1..] == [];
    assert c.events + [] == c.events;
    assert Chain(rs) == if c.outcome.KeyError? then c else CycleResult(c.events + [], Completed);
  }
}
