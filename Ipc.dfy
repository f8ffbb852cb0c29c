/** The interprocess plumbing the four programs share, reduced to what the
    core relies on: the build-time switch SYNC_BC of include/names.hpp, a memcpy
    into a mapped region (an array) and a Boost.Interprocess message queue (a
    FIFO sequence). */
module Ipc {

  import opened Wrappers

  /** SYNC_BC: the detector signals the renderer after each faces write. */
  const SYNC_BC: bool := true

  /** memcpy(dst + offset, src, |src|): overwrites exactly the cells
      [offset, offset + |src|) of `dst` and nothing else. */
  method CopyInto<T>(dst: array<T>, offset: nat, src: seq<T>)
    requires offset + |src| <= dst.Length
    modifies dst
    ensures dst[..] == old(dst[..offset]) + src + old(dst[offset + |src|..])
  {
    var i := 0;
    while i < |src|
      invariant 0 <= i <= |src|
      invariant dst[..offset] == old(dst[..offset])
      invariant dst[offset..offset + i] == src[..i]
      invariant dst[offset + i..] == old(dst[offset + i..])
    {
      dst[offset + i] := src[i];
      i := i + 1;
      assert dst[offset..offset + i] == dst[offset..offset + i - 1] + [src[i - 1]];
    }
    assert dst[..] == dst[..offset] + dst[offset..offset + |src|] + dst[offset + |src|..];
  }

  /** A named message queue. Messages are kept in send order; a receive takes
      the oldest one. The sizes the queues are created with only bound how
      far a sender can run ahead before it blocks, which belongs to the
      concurrent behaviour and is not modelled. */
  class MessageQueue<T> {
    var messages: seq<T>

    constructor ()
      ensures messages == []
    {
      messages := [];
    }

    /** send(): appends the message. */
    method Send(m: T)
      modifies this
      ensures messages == old(messages) + [m]
    {
      messages := messages + [m];
    }

    /** receive(): takes the oldest message; `None` stands for a receive that
        would block because nothing has been sent yet. */
    method Receive() returns (m: Option<T>)
      modifies this
      ensures old(messages) == [] ==> m == None && messages == old(messages)
      ensures old(messages) != [] ==> m == Some(old(messages)[0]) && messages == old(messages)[1..]
    {
      if messages == [] {
        m := None;
      } else {
        m := Some(messages[0]);
        messages := messages[1..];
      }
    }
  }
}
