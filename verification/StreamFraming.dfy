/** The framing loop of the dashboard's event stream: frames end at a blank line. */
module StreamFraming {
  import opened Sequences
  import opened Splitter

  const BLANK_LINE: string := "\n\n"

  class EventStreamReader {
    var buffer: string
    var dispatched: seq<string>

    constructor ()
      ensures buffer == "" && dispatched == []
    {
      buffer, dispatched := "", [];
    }

    /** One read: the decoded text is appended, and every complete frame is dispatched. */
    method Feed(chunk: string)
      modifies this
      ensures dispatched == old(dispatched) + Pieces(old(buffer) + chunk, BLANK_LINE)
      ensures buffer == Rest(old(buffer) + chunk, BLANK_LINE)
    {
      hide FirstAt;
      buffer := buffer + chunk;
      var boundary := FirstAt(buffer, BLANK_LINE, 0);
      while boundary < |buffer|
        invariant boundary == FirstAt(buffer, BLANK_LINE, 0)
        invariant dispatched + Pieces(buffer, BLANK_LINE)
                  == old(dispatched) + Pieces(old(buffer) + chunk, BLANK_LINE)
        invariant Rest(buffer, BLANK_LINE) == Rest(old(buffer) + chunk, BLANK_LINE)
        decreases |buffer|
      {
        var frame := buffer[..boundary];
        ghost var before, waiting := dispatched, buffer;
        buffer := buffer[boundary + 2..];
        dispatched := dispatched + [frame];
        assert Pieces(waiting, BLANK_LINE) == [frame] + Pieces(buffer, BLANK_LINE);
        Regroup(before, [frame], Pieces(buffer, BLANK_LINE));
        boundary := FirstAt(buffer, BLANK_LINE, 0);
      }
    }
  }

  /** How many chunks are read: all of them, or those before the signal is found aborted. */
  function ReadsBeforeAbort(chunks: seq<string>, aborted: nat -> bool, i: nat): (n: nat)
    requires i <= |chunks|
    ensures i <= n <= |chunks|
    decreases |chunks| - i
  {
    if i == |chunks| || aborted(i) then i else ReadsBeforeAbort(chunks, aborted, i + 1)
  }

  /**
   * However the text is cut into chunks, the frames dispatched are those of the whole text read, and
   * only what follows its last blank line is withheld.
   */
  method ConsumeEventStream(chunks: seq<string>, aborted: nat -> bool)
    returns (frames: seq<string>, withheld: string)
    ensures var text := Concat(chunks[..ReadsBeforeAbort(chunks, aborted, 0)]);
            frames == Pieces(text, BLANK_LINE) && withheld == Rest(text, BLANK_LINE)
  {
    hide Pieces, Rest;
    var reader := new EventStreamReader();
    var i := 0;
    NothingYet();
    while i < |chunks| && !aborted(i)
      invariant i <= |chunks|
      invariant fresh(reader)
      invariant ReadsBeforeAbort(chunks, aborted, i) == ReadsBeforeAbort(chunks, aborted, 0)
      invariant reader.dispatched == Pieces(Concat(chunks[..i]), BLANK_LINE)
      invariant reader.buffer == Rest(Concat(chunks[..i]), BLANK_LINE)
    {
      PartsSplitAlike(Concat(chunks[..i]), chunks[i], BLANK_LINE);
      assert chunks[..i + 1][..i] == chunks[..i];
      reader.Feed(chunks[i]);
      i := i + 1;
    }
    return reader.dispatched, reader.buffer;
  }

  lemma NothingYet()
    ensures Pieces<char>([], BLANK_LINE) == [] && Rest<char>([], BLANK_LINE) == []
  {
  }

  /** A frame that a sender can terminate: no blank line inside, and no newline at its end. */
  lemma CompleteFramesExactly(frame: string)
    ensures IsPiece(frame, BLANK_LINE) <==>
            (frame == [] || frame[|frame| - 1] != '\n') && forall i: nat :: !OccursAt(frame, BLANK_LINE, i)
  {
    var sent, n := frame + BLANK_LINE, |frame|;
    forall i: nat | i < n
      ensures OccursAt(sent, BLANK_LINE, i) <==> if i + 1 == n then frame[i] == '\n' else OccursAt(frame, BLANK_LINE, i)
    {
      assert sent[i..i + 2] == if i + 1 == n then [frame[i], '\n'] else frame[i..i + 2];
    }
    assert sent[n..n + 2] == BLANK_LINE;
    if IsPiece(frame, BLANK_LINE) {
      forall i: nat ensures !OccursAt(frame, BLANK_LINE, i) {
        if i + 1 < n {
          assert !OccursAt(sent, BLANK_LINE, i);
        }
      }
      if n > 0 {
        assert !OccursAt(sent, BLANK_LINE, n - 1);
      }
    } else if (n == 0 || frame[n - 1] != '\n') && forall i: nat :: !OccursAt(frame, BLANK_LINE, i) {
      FirstIs(sent, BLANK_LINE, 0, n);
    }
  }

  /** The frames a sender terminates are the frames dispatched, however the network cuts the stream. */
  lemma SentFramesArrive(frames: seq<string>, unfinished: string, chunks: seq<string>)
    requires forall i :: 0 <= i < |frames| ==> IsPiece(frames[i], BLANK_LINE)
    requires FirstAt(unfinished, BLANK_LINE, 0) == |unfinished|
    requires Concat(chunks) == Joined(frames, BLANK_LINE) + unfinished
    ensures Pieces(Concat(chunks), BLANK_LINE) == frames && Rest(Concat(chunks), BLANK_LINE) == unfinished
  {
    PiecesAreUnique(frames, unfinished, BLANK_LINE);
  }

  /** A stream whose newlines all follow a carriage return never completes a frame. */
  lemma CarriageReturnsHideFrames(text: string)
    requires forall i :: 0 <= i < |text| && text[i] == '\n' ==> i > 0 && text[i - 1] == '\r'
    ensures Pieces(text, BLANK_LINE) == [] && Rest(text, BLANK_LINE) == text
  {
    forall i: nat ensures !OccursAt(text, BLANK_LINE, i) {
      if i + 2 <= |text| {
        var two := text[i..i + 2];
        assert two[0] == text[i] && two[1] == text[i + 1];
      }
    }
    NoPieceExactly(text, BLANK_LINE);
  }
}
