/** The face list as it crosses the faces segment from the detector to the
    renderer: a leading count of encoded ints, then four ints per face
    (x, y, width, height), i.e. the fields of a cv::Rect. */
module FaceWire {

  /** cv::Rect(x, y, width, height). */
  datatype Rect = Rect(x: int, y: int, width: int, height: int)

  /** The faces region is truncated to 1024 * 16 bytes: 4096 ints. */
  const FACES_REGION_BYTES: nat := 1024 * 16
  const FACES_REGION_INTS: nat := FACES_REGION_BYTES / 4

  /** The largest number of faces whose encoding fits the region. */
  const MAX_FACES: nat := (FACES_REGION_INTS - 1) / 4

  /** The four ints of each face, faces in order. */
  function Flatten(boxes: seq<Rect>): (ints: seq<int>)
    ensures |ints| == 4 * |boxes|
  {
    if boxes == [] then []
    else [boxes[0].x, boxes[0].y, boxes[0].width, boxes[0].height] + Flatten(boxes[1..])
  }

  /** The payload written into the faces region: the count 4k, then the k
      faces. */
  function Encode(boxes: seq<Rect>): (ints: seq<int>)
    ensures |ints| == 1 + 4 * |boxes| && ints[0] == 4 * |boxes|
  {
    [|Flatten(boxes)|] + Flatten(boxes)
  }

  /** One rect per four ints, read with stride 4. */
  function Unflatten(ints: seq<int>): (boxes: seq<Rect>)
    requires |ints| % 4 == 0
    ensures 4 * |boxes| == |ints|
    decreases |ints|
  {
    if ints == [] then []
    else [Rect(ints[0], ints[1], ints[2], ints[3])] + Unflatten(ints[4..])
  }

  lemma {:induction false} FlattenAppend(a: seq<Rect>, b: seq<Rect>)
    ensures Flatten(a + b) == Flatten(a) + Flatten(b)
  {
    if a != [] {
      assert (a + b)[1..] == a[1..] + b;
      FlattenAppend(a[1..], b);
    } else {
      assert a + b == b;
    }
  }

  /** Face j occupies ints 4j .. 4j + 3 of the flattened list. */
  lemma {:induction false} FlattenAt(boxes: seq<Rect>, j: nat)
    requires j < |boxes|
    ensures Flatten(boxes)[4 * j..4 * j + 4]
         == [boxes[j].x, boxes[j].y, boxes[j].width, boxes[j].height]
  {
    if j > 0 {
      FlattenAt(boxes[1..], j - 1);
      assert Flatten(boxes)[4..] == Flatten(boxes[1..]);
    }
  }

  /** Face j of the encoded list sits at ints 1 + 4j .. 4 + 4j. */
  lemma EncodeShape(boxes: seq<Rect>, j: nat)
    requires j < |boxes|
    ensures Encode(boxes)[1 + 4 * j..5 + 4 * j]
         == [boxes[j].x, boxes[j].y, boxes[j].width, boxes[j].height]
  {
    FlattenAt(boxes, j);
    assert Encode(boxes)[1 + 4 * j..5 + 4 * j] == Flatten(boxes)[4 * j..4 * j + 4];
  }

  lemma {:induction false} UnflattenFlatten(boxes: seq<Rect>)
    ensures Unflatten(Flatten(boxes)) == boxes
  {
    if boxes != [] {
      var ints := Flatten(boxes);
      assert ints[4..] == Flatten(boxes[1..]);
      UnflattenFlatten(boxes[1..]);
    }
  }

  lemma {:induction false} FlattenUnflatten(ints: seq<int>)
    requires |ints| % 4 == 0
    ensures Flatten(Unflatten(ints)) == ints
    decreases |ints|
  {
    if ints != [] {
      var boxes := Unflatten(ints);
      assert boxes[1..] == Unflatten(ints[4..]);
      FlattenUnflatten(ints[4..]);
    }
  }

  lemma {:induction false} UnflattenAppend(a: seq<int>, b: seq<int>)
    requires |a| % 4 == 0 && |b| % 4 == 0
    ensures Unflatten(a + b) == Unflatten(a) + Unflatten(b)
    decreases |a|
  {
    if a == [] {
      assert a + b == b;
    } else {
      assert (a + b)[4..] == a[4..] + b;
      UnflattenAppend(a[4..], b);
    }
  }

  /** A faces region is readable by the renderer's loop: the count is a
      non-negative multiple of 4 and the count plus the ints it announces
      lie inside the region. */
  ghost predicate WellFormedFaces(region: seq<int>)
  {
    |region| >= 1 && region[0] >= 0 && region[0] % 4 == 0 && region[0] + 1 <= |region|
  }

  /** The faces the renderer's loop reads out of a well-formed region. */
  function DecodeRegion(region: seq<int>): (boxes: seq<Rect>)
    requires WellFormedFaces(region)
    ensures 4 * |boxes| == region[0]
  {
    Unflatten(region[1..region[0] + 1])
  }

  /** Rect j of a well-formed region is made of ints 1 + 4j .. 4 + 4j, in
      the order (x, y, width, height) of cv::Rect's constructor. */
  lemma DecodeAt(region: seq<int>, j: nat)
    requires WellFormedFaces(region) && 4 * j < region[0]
    ensures DecodeRegion(region)[j]
         == Rect(region[1 + 4 * j], region[2 + 4 * j], region[3 + 4 * j], region[4 + 4 * j])
  {
    var ints := region[1..region[0] + 1];
    var boxes := DecodeRegion(region);
    assert boxes == Unflatten(ints);
    FlattenUnflatten(ints);
    FlattenAt(boxes, j);
    var face := ints[4 * j..4 * j + 4];
    assert face == [boxes[j].x, boxes[j].y, boxes[j].width, boxes[j].height];
    assert face == [region[1 + 4 * j], region[2 + 4 * j], region[3 + 4 * j], region[4 + 4 * j]];
  }

  /** Writing an encoded face list over the front of the region, whatever
      was in the rest of it, gives back exactly that list, in order. */
  lemma RegionRoundTrip(boxes: seq<Rect>, rest: seq<int>)
    ensures WellFormedFaces(Encode(boxes) + rest)
    ensures DecodeRegion(Encode(boxes) + rest) == boxes
  {
    var region := Encode(boxes) + rest;
    assert region[1..region[0] + 1] == Flatten(boxes);
    UnflattenFlatten(boxes);
  }
}
