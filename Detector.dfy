/** The detection stage (src/main_B.cpp): flattening the network's
    detections into the face-list encoding, and publishing it into the faces
    segment followed by a sync message to the renderer. The network itself
    is outside the model: each detection arrives as its four pixel corners
    (already scaled to the frame and truncated to int) and whether its
    confidence exceeded the threshold. */
module Detector {

  import opened FaceWire
  import Ipc

  /** One row of the detection matrix: `confident` is
      `confidence > confidence_threshold`, (x1, y1) and (x2, y2) the two
      corners. */
  datatype Detection = Detection(confident: bool, x1: int, y1: int, x2: int, y2: int)

  /** The rect stored for a kept detection: corner (x1, y1), width x2 - x1,
      height y2 - y1. */
  function FaceOf(d: Detection): (face: Rect)
  {
    Rect(d.x1, d.y1, d.x2 - d.x1, d.y2 - d.y1)
  }

  /** The faces kept from a detection list: the confident ones, in
      detection order. */
  function Kept(detections: seq<Detection>): (faces: seq<Rect>)
    ensures |faces| <= |detections|
  {
    if detections == [] then []
    else
      var last := detections[|detections| - 1];
      Kept(detections[..|detections| - 1]) + (if last.confident then [FaceOf(last)] else [])
  }

  /** Kept filters each detection on its own and keeps detection order. */
  lemma {:induction false} KeptAppend(a: seq<Detection>, b: seq<Detection>)
    ensures Kept(a + b) == Kept(a) + Kept(b)
    decreases |b|
  {
    if b == [] {
      assert a + b == a;
    } else {
      var c := a + b;
      assert c[..|c| - 1] == a + b[..|b| - 1];
      assert c[|c| - 1] == b[|b| - 1];
      KeptAppend(a, b[..|b| - 1]);
    }
  }

  lemma KeptSingle(d: Detection)
    ensures Kept([d]) == if d.confident then [FaceOf(d)] else []
  {
    assert [d][..0] == [];
  }

  /** Every kept face is the rect of some confident detection (their order
      is the one KeptAppend gives). */
  lemma {:induction false} KeptFromConfident(detections: seq<Detection>, j: nat)
    requires j < |Kept(detections)|
    ensures exists i :: 0 <= i < |detections| && detections[i].confident && Kept(detections)[j] == FaceOf(detections[i])
    decreases |detections|
  {
    var n := |detections|;
    var init := detections[..n - 1];
    if j < |Kept(init)| {
      KeptFromConfident(init, j);
      var i :| 0 <= i < |init| && init[i].confident && Kept(init)[j] == FaceOf(init[i]);
      assert detections[i] == init[i];
    } else {
      assert detections[n - 1].confident && Kept(detections)[j] == FaceOf(detections[n - 1]);
    }
  }

  /** FaceDetector::detected_face after the network has run: push the four
      ints of each confident detection, then insert their number at the
      front. */
  method DetectedFace(detections: seq<Detection>) returns (faces: seq<int>)
    ensures faces == Encode(Kept(detections))
  {
    faces := [];
    var i := 0;
    while i < |detections|
      invariant 0 <= i <= |detections|
      invariant faces == Flatten(Kept(detections[..i]))
    {
      var d := detections[i];
      ghost var next := detections[..i + 1];
      assert next[..|next| - 1] == detections[..i] && next[|next| - 1] == d;
      assert Kept(next) == Kept(detections[..i]) + (if d.confident then [FaceOf(d)] else []);
      if d.confident {
        FlattenAppend(Kept(detections[..i]), [FaceOf(d)]);
        assert [FaceOf(d)][1..] == [];
        assert Flatten([FaceOf(d)]) == [d.x1, d.y1, d.x2 - d.x1, d.y2 - d.y1];
        faces := faces + [d.x1, d.y1, d.x2 - d.x1, d.y2 - d.y1];
      } else {
        assert Kept(next) == Kept(detections[..i]);
      }
      assert faces == Flatten(Kept(next));
      i := i + 1;
    }
    assert detections[..i] == detections;
    faces := [|faces|] + faces;
  }

  /** The faces write and sync of main (lines 209-224): the result is copied
      to the front of the faces region, the rest of the region keeps what an
      earlier, longer result left there, and with SYNC_BC one message ('\0')
      is sent to the renderer. The copy is 4 * |result| bytes into a
      16384-byte region and the code does not check that it fits. */
  method PublishFaces(region: array<int>, sync: Ipc.MessageQueue<char>, result: seq<int>)
    requires region.Length == FACES_REGION_INTS && |result| <= region.Length
    modifies region, sync
    ensures region[..] == result + old(region[|result|..])
    ensures sync.messages == old(sync.messages) + (if Ipc.SYNC_BC then ['\0'] else [])
  {
    Ipc.CopyInto(region, 0, result);
    if Ipc.SYNC_BC {
      sync.Send('\0');
    }
  }

  /** One detection cycle from detections to published faces: afterwards the
      region decodes to exactly the kept faces, and a sync message is
      waiting for the renderer. */
  method DetectionCycle(region: array<int>, sync: Ipc.MessageQueue<char>, detections: seq<Detection>)
    requires region.Length == FACES_REGION_INTS && |Kept(detections)| <= MAX_FACES
    modifies region, sync
    ensures WellFormedFaces(region[..]) && DecodeRegion(region[..]) == Kept(detections)
    ensures sync.messages == old(sync.messages) + ['\0']
  {
    var result := DetectedFace(detections);
    ghost var rest := region[|result|..];
    PublishFaces(region, sync, result);
    RegionRoundTrip(Kept(detections), rest);
  }
}
