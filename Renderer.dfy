/** The render stage (src/main_C.cpp): the BlurDrawer with its redaction
    mode register, the mode listener, the stride-4 decode of the faces
    region, and one render cycle gated by the sync queue. Pixel filters are
    kept abstract: an image is the captured pixels with the list of fills
    and blurs applied on top of them, in order. */
module Renderer {

  import opened Wrappers
  import opened Bytes
  import opened FaceWire
  import Ipc

  /** BlurDrawer::DEFAULT_MODE: fill. */
  const DEFAULT_MODE: int := 0

  /** An image as cv::rectangle (fill) and cv::GaussianBlur leave it. */
  datatype Image =
    | Captured(pixels: seq<byte>)
    | Filled(under: Image, area: Rect)
    | Blurred(under: Image, area: Rect)

  datatype Treatment = Fill(area: Rect) | Blur(area: Rect)

  /** The captured pixels under all treatments. */
  function Base(img: Image): (pixels: seq<byte>)
  {
    match img
    case Captured(p) => p
    case Filled(under, _) => Base(under)
    case Blurred(under, _) => Base(under)
  }

  /** The treatments applied to an image, oldest first. */
  function Treatments(img: Image): (ts: seq<Treatment>)
  {
    match img
    case Captured(_) => []
    case Filled(under, r) => Treatments(under) + [Fill(r)]
    case Blurred(under, r) => Treatments(under) + [Blur(r)]
  }

  /** Fill every rect of the list, first to last. */
  function FillEach(img: Image, rects: seq<Rect>): (filled: Image)
  {
    if rects == [] then img else Filled(FillEach(img, rects[..|rects| - 1]), rects[|rects| - 1])
  }

  /** Blur every rect of the list, first to last. */
  function BlurEach(img: Image, rects: seq<Rect>): (blurred: Image)
  {
    if rects == [] then img else Blurred(BlurEach(img, rects[..|rects| - 1]), rects[|rects| - 1])
  }

  /** What draw() makes of an image: mode 0 fills, mode 1 blurs, any other
      mode leaves the image as it is. */
  function Redacted(img: Image, rects: seq<Rect>, mode: int): (shown: Image)
    ensures Base(shown) == Base(img)
    ensures mode != 0 && mode != 1 ==> shown == img
  {
    FillEachTreats(img, rects);
    BlurEachTreats(img, rects);
    if mode == 0 then FillEach(img, rects)
    else if mode == 1 then BlurEach(img, rects)
    else img
  }

  function Fills(rects: seq<Rect>): (ts: seq<Treatment>)
    ensures |ts| == |rects|
    ensures forall j :: 0 <= j < |rects| ==> ts[j] == Fill(rects[j])
  {
    seq(|rects|, j requires 0 <= j < |rects| => Fill(rects[j]))
  }

  function Blurs(rects: seq<Rect>): (ts: seq<Treatment>)
    ensures |ts| == |rects|
    ensures forall j :: 0 <= j < |rects| ==> ts[j] == Blur(rects[j])
  {
    seq(|rects|, j requires 0 <= j < |rects| => Blur(rects[j]))
  }

  lemma {:induction false} FillEachTreats(img: Image, rects: seq<Rect>)
    ensures Base(FillEach(img, rects)) == Base(img)
    ensures Treatments(FillEach(img, rects)) == Treatments(img) + Fills(rects)
    decreases |rects|
  {
    if rects != [] {
      FillEachTreats(img, rects[..|rects| - 1]);
      assert Fills(rects) == Fills(rects[..|rects| - 1]) + [Fill(rects[|rects| - 1])];
    }
  }

  lemma {:induction false} BlurEachTreats(img: Image, rects: seq<Rect>)
    ensures Base(BlurEach(img, rects)) == Base(img)
    ensures Treatments(BlurEach(img, rects)) == Treatments(img) + Blurs(rects)
    decreases |rects|
  {
    if rects != [] {
      BlurEachTreats(img, rects[..|rects| - 1]);
      assert Blurs(rects) == Blurs(rects[..|rects| - 1]) + [Blur(rects[|rects| - 1])];
    }
  }

  /** draw() keeps the captured pixels and adds exactly one treatment per
      listed rect, in list order: a fill in mode 0, a blur in mode 1, and
      none in any other mode. */
  lemma RedactedTreatments(img: Image, rects: seq<Rect>, mode: int)
    ensures Base(Redacted(img, rects, mode)) == Base(img)
    ensures mode == 0 ==> Treatments(Redacted(img, rects, mode)) == Treatments(img) + Fills(rects)
    ensures mode == 1 ==> Treatments(Redacted(img, rects, mode)) == Treatments(img) + Blurs(rects)
    ensures mode != 0 && mode != 1 ==> Redacted(img, rects, mode) == img
  {
    FillEachTreats(img, rects);
    BlurEachTreats(img, rects);
  }

  /** The drawer the renderer keeps for the whole run. The mutex around the
      mode is not modelled (concurrency). */
  class BlurDrawer {
    var image: Image
    var faceList: seq<Rect>
    var mode: int

    /** BlurDrawer(): default mode; the image and list start empty. */
    constructor ()
      ensures mode == DEFAULT_MODE && faceList == [] && image == Captured([])
    {
      image := Captured([]);
      faceList := [];
      mode := DEFAULT_MODE;
    }

    /** BlurDrawer(input_image, list, x). */
    constructor WithDrawInfo(inputImage: Image, list: seq<Rect>, x: int)
      ensures image == inputImage && faceList == list && mode == x
    {
      faceList := list;
      image := inputImage;
      mode := x;
    }

    method GetMode() returns (m: int)
      ensures m == mode
    {
      m := mode;
    }

    /** set_mode(new_mode): stores any int, unchecked. */
    method SetMode(newMode: int)
      modifies this
      ensures mode == newMode && image == old(image) && faceList == old(faceList)
    {
      mode := newMode;
    }

    /** set_draw_info(input_image, list): replaces the list wholesale and
        takes a copy of the image. */
    method SetDrawInfo(inputImage: Image, list: seq<Rect>)
      modifies this
      ensures image == inputImage && faceList == list && mode == old(mode)
    {
      faceList := list;
      image := inputImage;
    }

    /** draw(): treats each listed rect of the stored image in place and
        returns the result. */
    method Draw() returns (result: Image)
      modifies this`image
      ensures image == Redacted(old(image), faceList, mode) && result == image
      ensures faceList == old(faceList) && mode == old(mode)
    {
      ghost var original := image;
      if mode == 0 {
        var i := 0;
        while i < |faceList|
          invariant 0 <= i <= |faceList|
          invariant image == FillEach(original, faceList[..i])
        {
          assert faceList[..i + 1][..i] == faceList[..i];
          image := Filled(image, faceList[i]);
          i := i + 1;
        }
        assert faceList[..i] == faceList;
      } else if mode == 1 {
        var i := 0;
        while i < |faceList|
          invariant 0 <= i <= |faceList|
          invariant image == BlurEach(original, faceList[..i])
        {
          assert faceList[..i + 1][..i] == faceList[..i];
          image := Blurred(image, faceList[i]);
          i := i + 1;
        }
        assert faceList[..i] == faceList;
      }
      result := image;
    }
  }

  /** After setting the mode, reading it gives the value set, whatever it
      is, and a fresh drawer reads the default. */
  method ModeRegister(newMode: int) returns (initial: int, afterSet: int)
    ensures initial == DEFAULT_MODE && afterSet == newMode
  {
    var drawer := new BlurDrawer();
    initial := drawer.GetMode();
    drawer.SetMode(newMode);
    afterSet := drawer.GetMode();
  }

  /** wait_for_mode_change: every received value is passed to set_mode in
      receive order, unvalidated; the listener runs until the queue has
      nothing more to give (where the real thread blocks). `applied` lists
      the values it passed to set_mode. */
  method WaitForModeChange(drawer: BlurDrawer, queue: Ipc.MessageQueue<int>) returns (applied: seq<int>)
    modifies drawer, queue
    ensures applied == old(queue.messages) && queue.messages == []
    ensures drawer.mode == if applied == [] then old(drawer.mode) else applied[|applied| - 1]
    ensures drawer.image == old(drawer.image) && drawer.faceList == old(drawer.faceList)
  {
    applied := [];
    while queue.messages != []
      invariant old(queue.messages) == applied + queue.messages
      invariant drawer.mode == if applied == [] then old(drawer.mode) else applied[|applied| - 1]
      invariant drawer.image == old(drawer.image) && drawer.faceList == old(drawer.faceList)
      decreases |queue.messages|
    {
      var m := queue.Receive();
      drawer.SetMode(m.value);
      applied := applied + [m.value];
    }
  }

  /** The decode of main (lines 196-211): copy the count and the ints it
      announces out of the faces region, then build one rect per four ints
      with i = 1, 5, 9, ... while i <= count. The code trusts the count; the
      requires say when the reads stay inside the copy. */
  method ReadFaces(region: array<int>) returns (list: seq<Rect>)
    requires WellFormedFaces(region[..])
    ensures list == DecodeRegion(region[..])
  {
    var sizeOfArray := region[0];
    var faces := region[..sizeOfArray + 1];
    list := [];
    var i := 1;
    while i <= sizeOfArray
      invariant 1 <= i <= sizeOfArray + 1 && i % 4 == 1
      invariant list == Unflatten(faces[1..i])
    {
      UnflattenAppend(faces[1..i], faces[i..i + 4]);
      assert faces[1..i + 4] == faces[1..i] + faces[i..i + 4];
      assert Unflatten(faces[i..i + 4]) == [Rect(faces[i], faces[i + 1], faces[i + 2], faces[i + 3])];
      list := list + [Rect(faces[i], faces[i + 1], faces[i + 2], faces[i + 3])];
      i := i + 4;
    }
    assert faces[1..i] == region[..][1..sizeOfArray + 1];
  }

  /** One pass of the render loop after the frame has been taken out of the
      frame segment as `img`. SYNC_BC is on: wait for the detector's signal
      (`None`: the receive would block, and nothing is read), then read the
      faces, hand them to the drawer with the image and draw. */
  method RenderCycle(drawer: BlurDrawer, sync: Ipc.MessageQueue<char>, region: array<int>, img: Image)
      returns (shown: Option<Image>)
    requires sync.messages != [] ==> WellFormedFaces(region[..])
    modifies drawer, sync
    ensures old(sync.messages) == [] ==>
      shown == None && sync.messages == [] &&
      drawer.image == old(drawer.image) && drawer.faceList == old(drawer.faceList) && drawer.mode == old(drawer.mode)
    ensures old(sync.messages) != [] ==>
      sync.messages == old(sync.messages)[1..] &&
      drawer.faceList == DecodeRegion(region[..]) && drawer.mode == old(drawer.mode) &&
      drawer.image == Redacted(img, drawer.faceList, drawer.mode) && shown == Some(drawer.image)
  {
    if Ipc.SYNC_BC {
      var signal := sync.Receive();
      if signal == None {
        return None;
      }
    }
    var list := ReadFaces(region);
    drawer.SetDrawInfo(img, list);
    var image := drawer.Draw();
    shown := Some(image);
  }
}
