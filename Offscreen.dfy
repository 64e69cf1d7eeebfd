/** The runtime messages the background worker and the offscreen document
    exchange (`chrome.runtime.sendMessage`). */
module Messages {
  datatype Message =
    | PlayAudio(dataUrl: string)   // {type: "play-audio", dataUrl}
    | StopAudio                    // {type: "stop-audio"}
    | PlayStarted                  // {type: "play-started"}
    | PlayEnded                    // {type: "play-ended"}
    | Other(kind: string)          // any other `type`, or none
}

/** offscreen.js: the single audio slot of the offscreen document. Every
    `new Audio()` is a clip numbered by creation; the slot `currentAudio`
    holds at most one of them, and the callbacks of a clip compare their clip
    with the slot before clearing it. */
module Offscreen {
  import opened Wrappers
  import opened Messages

  /** `{ ok: true }`. */
  datatype Response = Ok

  /** What `stopAudio` sends: one `play-ended` when a clip was current, else nothing. */
  function StopMessages(current: Option<nat>): (r: seq<Message>)
    ensures |r| <= 1
    ensures r == [] <==> current.None?
    ensures forall i :: 0 <= i < |r| ==> r[i] == PlayEnded
  {
    if current.Some? then [PlayEnded] else []
  }

  class Player {
    /** The `src` of every clip created so far, by clip number. */
    var clips: seq<string>
    /** `currentAudio`: the clip in the slot, if any. */
    var current: Option<nat>
    /** The clips `stopAudio` has paused. */
    var paused: set<nat>
    /** Messages sent to the background worker, oldest first. */
    var outbox: seq<Message>

    /** The slot names a clip that exists and has not been paused. */
    predicate Valid()
      reads this
    {
      (current.Some? ==> current.value < |clips| && current.value !in paused)
      && forall c :: c in paused ==> c < |clips|
    }

    constructor ()
      ensures clips == [] && current.None? && paused == {} && outbox == []
      ensures Valid()
    {
      clips := [];
      current := None;
      paused := {};
      outbox := [];
    }

    /** `stopAudio`: pause and clear the current clip and send `play-ended`;
        with an empty slot, do nothing. */
    method Stop()
      requires Valid()
      modifies this
      ensures Valid()
      ensures current.None? && clips == old(clips)
      ensures outbox == old(outbox) + StopMessages(old(current))
      ensures paused == if old(current).Some? then old(paused) + {old(current).value} else old(paused)
    {
      if current.None? {
        return;
      }
      paused := paused + {current.value};
      current := None;
      outbox := outbox + [PlayEnded];
    }

    /** `playAudio`: stop whatever plays, create a clip for `dataUrl` and put
        it in the slot (the clip's `play()` outcome arrives later, through
        `OnPlay` or `Finished`). */
    method Play(dataUrl: string) returns (clip: nat)
      requires Valid()
      modifies this
      ensures Valid()
      ensures clip == |old(clips)| && clips == old(clips) + [dataUrl]
      ensures current == Some(clip)
      ensures outbox == old(outbox) + StopMessages(old(current))
      ensures paused == if old(current).Some? then old(paused) + {old(current).value} else old(paused)
    {
      Stop();
      clip := |clips|;
      clips := clips + [dataUrl];
      current := Some(clip);
    }

    /** A clip's `onplay`: report that playback started. */
    method OnPlay(clip: nat)
      requires Valid() && clip < |clips|
      modifies this
      ensures Valid()
      ensures outbox == old(outbox) + [PlayStarted]
      ensures clips == old(clips) && current == old(current) && paused == old(paused)
    {
      outbox := outbox + [PlayStarted];
    }

    /** A clip's `onended`, `onerror`, or the rejection of its `play()`: clear
        the slot only if this clip is still in it, and send `play-ended` in
        every case. */
    method Finished(clip: nat)
      requires Valid() && clip < |clips|
      modifies this
      ensures Valid()
      ensures current == if old(current) == Some(clip) then None else old(current)
      ensures outbox == old(outbox) + [PlayEnded]
      ensures clips == old(clips) && paused == old(paused)
    {
      if current == Some(clip) {
        current := None;
      }
      outbox := outbox + [PlayEnded];
    }

    /** The `onMessage` listener: `play-audio` plays, `stop-audio` stops, both
        pause the clip that was current and answer `{ ok: true }`; other
        messages get no answer and change nothing. */
    method Dispatch(msg: Message) returns (answer: Option<Response>)
      requires Valid()
      modifies this
      ensures Valid()
      ensures answer.Some? <==> msg.PlayAudio? || msg == StopAudio
      ensures msg.PlayAudio? ==> clips == old(clips) + [msg.dataUrl] && current == Some(|old(clips)|)
                                 && outbox == old(outbox) + StopMessages(old(current))
      ensures msg == StopAudio ==> current.None? && clips == old(clips)
                                   && outbox == old(outbox) + StopMessages(old(current))
      ensures msg.PlayAudio? || msg == StopAudio ==>
                paused == if old(current).Some? then old(paused) + {old(current).value} else old(paused)
      ensures !msg.PlayAudio? && msg != StopAudio ==>
                clips == old(clips) && current == old(current) && paused == old(paused) && outbox == old(outbox)
    {
      if msg.PlayAudio? {
        var _ := Play(msg.dataUrl);
        return Some(Ok);
      }
      if msg == StopAudio {
        Stop();
        return Some(Ok);
      }
      return None;
    }
  }

  /** A superseded clip still reports its end: replacing clip A by clip B
      and then finishing A leaves B in the slot and sends two `play-ended`
      (one from the stop, one from A's handler). */
  method SupersededClipScenario() returns (p: Player)
    ensures p.current == Some(1)
    ensures p.outbox == [PlayEnded, PlayEnded]
  {
    p := new Player();
    var a := p.Play("data:a");
    var b := p.Play("data:b");
    p.Finished(a);
  }
}
