/** The detector and the renderer together, run one after the other as the
    sync queue orders them: a render cycle that follows a detection cycle
    draws exactly the faces that cycle kept, in detection order. This holds
    also when the renderer lags behind and earlier signals are still
    queued: it takes the oldest signal but reads the newest faces. */
module Pipeline {

  import opened Wrappers
  import opened FaceWire
  import Ipc
  import Detector
  import Renderer

  method DetectThenRender(region: array<int>, sync: Ipc.MessageQueue<char>, drawer: Renderer.BlurDrawer,
                          detections: seq<Detector.Detection>, img: Renderer.Image)
      returns (shown: Option<Renderer.Image>)
    requires region.Length == FACES_REGION_INTS && |Detector.Kept(detections)| <= MAX_FACES
    modifies region, sync, drawer
    ensures sync.messages == (old(sync.messages) + ['\0'])[1..]
    ensures drawer.faceList == Detector.Kept(detections) && drawer.mode == old(drawer.mode)
    ensures shown == Some(Renderer.Redacted(img, Detector.Kept(detections), old(drawer.mode)))
  {
    Detector.DetectionCycle(region, sync, detections);
    shown := Renderer.RenderCycle(drawer, sync, region, img);
  }
}
