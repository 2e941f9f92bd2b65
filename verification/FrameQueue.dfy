/**
  Handing a remote terminal's video frames to the background writer, through a channel that holds
  one. Frames that would find it full are dropped before any work is spent on them, and a frame equal
  to the last one sent is skipped by its hash; so a hash may be recorded only for a frame that is
  really sent. The writer empties the channel whenever it likes.
 */
module FrameQueue {
  import opened Common
  import opened HostIDs

  datatype Frame = Frame(window: string, image: int, data: seq<int>)

  /** For every window and host id, the hash of the last frame sent. */
  type Hashes = map<string, map<int, int>>

  /** Looking up a missing key gives zero. */
  function Lookup(t: Hashes, w: string, k: int): int {
    if Holds(t, w, k) then t[w][k] else 0
  }

  /** A frame of the stream with this hash was sent. */
  ghost predicate WasSent(sent: seq<Frame>, checksum: seq<int> -> int, w: string, k: int, hash: int) {
    exists i :: 0 <= i < |sent| && sent[i].window == w && sent[i].image == k && checksum(sent[i].data) == hash
  }

  ghost predicate AllSent(hashes: Hashes, sent: seq<Frame>, checksum: seq<int> -> int) {
    forall w, k :: Holds(hashes, w, k) ==> WasSent(sent, checksum, w, k, hashes[w][k])
  }

  lemma {:induction false} SentMore(hashes: Hashes, sent: seq<Frame>, checksum: seq<int> -> int, f: Frame)
    requires AllSent(hashes, sent, checksum)
    ensures AllSent(hashes, sent + [f], checksum)
    ensures AllSent(Stored(hashes, f.window, f.image, checksum(f.data)), sent + [f], checksum)
  {
    var all := sent + [f];
    forall w, k | Holds(hashes, w, k)
      ensures WasSent(all, checksum, w, k, hashes[w][k])
    {
      var i :| 0 <= i < |sent| && sent[i].window == w && sent[i].image == k && checksum(sent[i].data) == hashes[w][k];
      assert all[i] == sent[i];
    }
    assert all[|sent|] == f;
    assert WasSent(all, checksum, f.window, f.image, checksum(f.data));
    var stored := Stored(hashes, f.window, f.image, checksum(f.data));
    forall w, k | Holds(stored, w, k)
      ensures WasSent(all, checksum, w, k, stored[w][k])
    {
      if (w, k) != (f.window, f.image) {
        assert Holds(hashes, w, k) && stored[w][k] == hashes[w][k];
      }
    }
  }

  datatype Outcome = Overlay | Busy | Unreadable | Unchanged | Queued | Dropped | Direct

  class FrameQueue {
    const remoteClient: bool
    /** The checksum is a parameter: any function of the bytes will do. */
    const checksum: seq<int> -> int
    var overlayActive: bool
    var imageIDMap: IDs
    var nextHostID: int
    var lastFrameHash: Hashes
    /** The channel: at most one frame. */
    var channel: seq<Frame>
    /** Every frame ever put in the channel. */
    ghost var sent: seq<Frame>

    constructor (remoteClient: bool, checksum: seq<int> -> int)
      ensures Valid() && this.remoteClient == remoteClient && this.checksum == checksum && channel == []
    {
      this.remoteClient, this.checksum := remoteClient, checksum;
      overlayActive, imageIDMap, nextHostID, lastFrameHash, channel, sent := false, map[], 1, map[], [], [];
    }

    /** Every recorded hash is that of a frame of its stream that was sent. */
    ghost predicate Valid()
      reads this
    {
      |channel| <= 1 && AllSent(lastFrameHash, sent, checksum)
    }

    /** The background writer receives the waiting frame, if it gets to run at this point. */
    method Drain(runs: bool)
      modifies this`channel
      ensures channel == if runs then [] else old(channel)
    {
      if runs {
        channel := [];
      }
    }

    /** Puts the frame in the channel if there is room, and otherwise drops it. */
    method Send(f: Frame) returns (ok: bool)
      requires |channel| <= 1
      modifies this`channel, this`sent
      ensures ok == (old(channel) == [])
      ensures ok ==> channel == [f] && sent == old(sent) + [f]
      ensures !ok ==> channel == old(channel) && sent == old(sent)
    {
      ok := |channel| == 0;
      if ok {
        channel, sent := [f], sent + [f];
      }
    }

    /** Records the frame's hash unless it is that of the last frame sent. */
    method IsNew(w: string, image: int, data: seq<int>) returns (isNew: bool)
      modifies this`lastFrameHash
      ensures isNew <==> Lookup(old(lastFrameHash), w, image) != checksum(data)
      ensures lastFrameHash == if isNew then Stored(old(lastFrameHash), w, image, checksum(data))
                               else old(lastFrameHash)
    {
      var h := checksum(data);
      isNew := Lookup(lastFrameHash, w, image) != h;
      if isNew {
        lastFrameHash := Stored(lastFrameHash, w, image, h);
      }
    }

    function IDBook(): Book
      reads this
    {
      Book(imageIDMap, nextHostID)
    }

    /** The host id the frame goes to, and whether its guest id was known. */
    method ImageFor(w: string, guest: int) returns (image: int, reusing: bool)
      modifies this`imageIDMap, this`nextHostID
      ensures reusing == old(Holds(imageIDMap, w, guest))
      ensures image == IDFor(old(IDBook()), w, guest) && IDBook() == Identified(old(IDBook()), w, guest)
    {
      reusing := Holds(imageIDMap, w, guest);
      image := if reusing then imageIDMap[w][guest] else 0;
      if w !in imageIDMap {
        imageIDMap := imageIDMap[w := map[]];
      }
      assert Holds(imageIDMap, w, guest) ==> imageIDMap[w := imageIDMap[w]] == imageIDMap;
      if !reusing || guest == 0 {
        image, nextHostID := nextHostID, NextID(nextHostID);
        if guest != 0 {
          imageIDMap := imageIDMap[w := imageIDMap[w][guest := image]];
        }
      }
    }

    /** The frame is one of a stream already being sent to a remote terminal. */
    predicate Streams(w: string, guest: int)
      reads this
    {
      remoteClient && Known(IDBook(), w, guest)
    }

    /**
      One frame from a guest: its file's bytes, if the file can be read. `drains` says at which points
      the writer empties the channel meanwhile; nobody else sends, since senders hold the lock
      throughout.
     */
    method Forward(w: string, guest: int, file: Option<seq<int>>, drains: (bool, bool)) returns (o: Outcome)
      requires Valid()
      modifies this`imageIDMap, this`nextHostID, this`lastFrameHash, this`channel, this`sent
      ensures Valid()
      // Once past the first check, a frame of a known stream is never dropped for want of room.
      ensures old(Streams(w, guest)) ==> o != Dropped && o != Direct && (o == Busy ==> old(channel) != [])
      // Hashes change exactly when such a frame is sent, whose hash they then hold.
      ensures o == Queued && old(Streams(w, guest)) ==>
                && file.Some? && sent == old(sent) + [Frame(w, old(imageIDMap)[w][guest], file.value)]
                && lastFrameHash == Stored(old(lastFrameHash), w, old(imageIDMap)[w][guest], checksum(file.value))
      ensures !(o == Queued && old(Streams(w, guest))) ==> lastFrameHash == old(lastFrameHash)
      ensures o != Queued ==> sent == old(sent)
      // What is skipped: exactly a frame of a known stream whose hash is that of the last one sent.
      ensures o == Unchanged <==>
                && !(old(overlayActive) && remoteClient) && old(Streams(w, guest)) && old(channel) == [] && file.Some?
                && Lookup(old(lastFrameHash), w, old(imageIDMap)[w][guest]) == checksum(file.value)
      // What can be dropped at the channel: a frame that was not checked for it, such as one of guest id 0.
      ensures o == Dropped <==>
                && !(old(overlayActive) && remoteClient) && file.Some? && !old(Streams(w, guest))
                && old(Holds(imageIDMap, w, guest)) && old(channel) != [] && drains == (false, false)
      // An id is looked up, or given, exactly for a frame that gets that far.
      ensures IDBook() == if o in {Overlay, Busy, Unreadable, Unchanged} then old(IDBook())
                          else Identified(old(IDBook()), w, guest)
    {
      if overlayActive && remoteClient {
        return Overlay;
      }
      var known := Streams(w, guest);
      if |channel| > 0 && known {
        return Busy;
      }
      Drain(drains.0);
      if file == None {
        return Unreadable;
      }
      var data := file.value;
      ghost var hashes := lastFrameHash;
      if known {
        var isNew := IsNew(w, imageIDMap[w][guest], data);
        if !isNew {
          return Unchanged;
        }
      }
      var image, reusing := ImageFor(w, guest);
      Drain(drains.1);
      if !reusing {
        return Direct;
      }
      SentMore(hashes, sent, checksum, Frame(w, image, data));
      var ok := Send(Frame(w, image, data));
      o := if ok then Queued else Dropped;
    }
  }
}
