/**
 The main loop of utils/object_detection.py, one cycle after the engine has
 answered: publish the count, walk the detections building `boxes` and `names`
 and putting the progressively annotated frame, then publish both arrays.
 */
module ObjectDetection {
  import opened Detections

  /** The four sinks a cycle writes to (the `nb_boxes`, `boxes` and `boxes_names`
      network-table entries and the `MLOut` video output), seen as one log of
      publish calls in the order they were made. */
  class Sinks {
    var events: seq<Event>

    constructor ()
      ensures events == []
    {
      events := [];
    }

    method SetNbBoxes(n: nat)
      modifies this
      ensures events == old(events) + [NbBoxes(n)]
    {
      events := events + [NbBoxes(n)];
    }

    method PutFrame(f: Frame)
      modifies this
      ensures events == old(events) + [Event.PutFrame(f)]
    {
      events := events + [Event.PutFrame(f)];
    }

    method SetBoxes(coords: seq<real>)
      modifies this
      ensures events == old(events) + [BoxesArray(coords)]
    {
      events := events + [BoxesArray(coords)];
    }

    method SetBoxesNames(names: seq<string>)
      modifies this
      ensures events == old(events) + [NamesArray(names)]
    {
      events := events + [NamesArray(names)];
    }
  }

  /** `log_object`'s one step that can fail: with a non-empty table it looks the
      class id up, which raises KeyError for an unknown id. */
  function LogObject(obj: Detection, labels: LabelMap): Option<Outcome>
  {
    if labels != map[] && obj.labelId !in labels then Some(KeyError(obj.labelId)) else None
  }

  /** `log_object` fails on a detection exactly when the encoder's own lookup
      would, with the same error. */
  lemma LogObjectAgrees(obj: Detection, labels: LabelMap)
    ensures LogObject(obj, labels).Some? <==> Cycle([obj], labels).outcome.KeyError?
    ensures LogObject(obj, labels).Some? ==> LogObject(obj, labels).value == Cycle([obj], labels).outcome
  {
  }

  /** One cycle on the detections `ans` the engine returned. Whether logging is
      on changes only where an unknown class id raises KeyError, not what is
      published nor how the cycle ends. */
  method RunCycle(out: Sinks, ans: seq<Detection>, labels: LabelMap, logging: bool) returns (outcome: Outcome)
    modifies out
    ensures out.events == old(out.events) + Cycle(ans, labels).events
    ensures outcome == Cycle(ans, labels).outcome
  {
    out.SetNbBoxes(|ans|);
    var boxes: seq<real> := [];
    var names: seq<string> := [];
    if ans != [] {
      var drawn: seq<Box> := [];
      for i := 0 to |ans|
        invariant labels != map[] ==> Labelled(ans[..i], labels)
        invariant boxes == FlatBoxes(ans[..i])
        invariant names == NameList(ans[..i], labels)
        invariant drawn == Rects(ans[..i])
        invariant out.events == old(out.events) + [NbBoxes(|ans|)] + AnnotatedFrames(ans[..i])
      {
        var obj := ans[i];
        PrefixStep(ans, labels, i);
        if logging {
          var failure := LogObject(obj, labels);
          if failure.Some? {
            CycleStopsAt(ans, labels, i);
            return failure.value;
          }
        }
        if labels != map[] {
          if obj.labelId !in labels {
            CycleStopsAt(ans, labels, i);
            return KeyError(obj.labelId);
          }
          names := names + [labels[obj.labelId]];
        }
        boxes := boxes + Flatten(obj.box);
        drawn := drawn + [obj.box];
        out.PutFrame(Annotated(drawn));
      }
      assert ans[..|ans|] == ans;
    } else {
      out.PutFrame(Raw);
    }
    out.SetBoxes(boxes);
    out.SetBoxesNames(names);
    outcome := Completed;
  }

  /** `main`'s loop over the deployed label table, one cycle per entry of
      `answers` (the engine's answer for each captured frame), until the
      answers run out or a cycle raises KeyError, which ends the program. */
  method MainLoop(out: Sinks, answers: seq<seq<Detection>>, logging: bool) returns (outcome: Outcome)
    modifies out
    ensures out.events == old(out.events) + Run(answers, Labels).events
    ensures outcome == Run(answers, Labels).outcome
  {
    var j := 0;
    while j < |answers|
      invariant 0 <= j <= |answers|
      invariant Run(answers[..j], Labels).outcome == Completed
      invariant out.events == old(out.events) + Run(answers[..j], Labels).events
    {
      var o := RunCycle(out, answers[j], Labels, logging);
      RunAppend(answers[..j], [answers[j]], Labels);
      RunOne(answers[j], Labels);
      assert answers[..j + 1] == answers[..j] + [answers[j]];
      if o.KeyError? {
        RunAppend(answers[..j + 1], answers[j + 1..], Labels);
        assert answers[..j + 1] + answers[j + 1..] == answers;
        return o;
      }
      j := j + 1;
    }
    assert answers[..j] == answers;
    outcome := Completed;
  }
}
