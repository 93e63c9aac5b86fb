/**
 * The offset arithmetic of `download_log_tail`. The FTP server's replies are
 * inputs: the answer to `SIZE`, and the bytes a `RETR` from the requested offset
 * returned (already decoded to text).
 */
module Tail {
  import opened Util
  import opened Text

  datatype SizeReply = SizeFailed | NoSize | Size(n: nat)
  datatype RetrReply = RetrFailed | Retrieved(content: string)

  /** The new text (`None` on failure), the position to resume from, and the offset
      a `RETR` was issued from, if one was. */
  datatype TailResult = TailResult(content: Option<string>, position: int, requestedFrom: Option<int>)

  /** `download_log_tail(ftp, path, from)`. A file shorter than the saved position
      was rotated and is read from the start; a failure after that point reports the
      reset position. */
  function DownloadLogTail(size: SizeReply, retr: RetrReply, from: int): TailResult
  {
    match size
    case SizeFailed => TailResult(None, from, None)
    case NoSize => TailResult(None, from, None)
    case Size(n) =>
      var start := if n < from then 0 else from;
      if n == start then TailResult(Some(""), start, None)
      else match retr
        case RetrFailed => TailResult(None, start, Some(start))
        case Retrieved(c) => TailResult(Some(c), n, Some(start))
  }

  /** The four outcomes: no size, nothing new, new text up to the end of the file,
      and a failed transfer. */
  lemma TailCases(size: SizeReply, retr: RetrReply, from: int)
    ensures var r := DownloadLogTail(size, retr, from);
      && (!size.Size? ==> r == TailResult(None, from, None))
      && (size.Size? && size.n == from ==> r == TailResult(Some(""), from, None))
      && (size.Size? && size.n < from ==> r.requestedFrom == (if size.n == 0 then None else Some(0)))
      && (size.Size? && size.n > from && retr.Retrieved? ==> r == TailResult(Some(retr.content), size.n, Some(from)))
      && (size.Size? && size.n > from && retr.RetrFailed? ==> r == TailResult(None, from, Some(from)))
      && (size.Size? && 0 < size.n < from && retr.RetrFailed? ==> r == TailResult(None, 0, Some(0)))
  {
  }

  // ---------------------------------------------------------------- against a remote file

  /** The replies a server holding `file` gives to a tail from `from`. */
  function Poll(file: string, from: int): TailResult
  {
    var start := if |file| < from then 0 else from;
    DownloadLogTail(Size(|file|), if 0 <= start <= |file| then Retrieved(file[start..]) else RetrFailed, from)
  }

  /** Rotation: a file shorter than the saved position is read whole. */
  lemma RotationReadsWhole(file: string, from: int)
    requires |file| < from
    ensures Poll(file, from).requestedFrom == (if file == "" then None else Some(0))
    ensures Poll(file, from).content == Some(file)
    ensures Poll(file, from).position == |file|
  {
    assert file[0..] == file;
  }

  lemma RotationExample()
    ensures DownloadLogTail(Size(100), Retrieved("x"), 5000).requestedFrom == Some(0)
  {
  }

  /** Two polls of a file that only grows hand over every character once: what the
      second poll reads continues exactly where the first stopped. */
  lemma PollsAreContiguous(file: string, more: string, from: nat)
    requires from <= |file|
    ensures var first := Poll(file, from);
      var second := Poll(file + more, first.position);
      && first.content.Some? && second.content.Some?
      && first.content.value + second.content.value == (file + more)[from..]
      && second.position == |file + more|
  {
    var first := Poll(file, from);
    assert first.position == |file|;
    assert first.content.value == file[from..];
    var second := Poll(file + more, |file|);
    assert second.content.value == more by {
      assert (file + more)[|file|..] == more;
    }
    assert (file + more)[from..] == file[from..] + more;
  }

  /** A line the writer had not finished when the text was fetched reaches the
      decoder as two pieces: its start ends this batch, its rest begins the next. */
  lemma PartialLineSplits(done: string, partial: string, rest: string, more: string)
    requires '\n' !in partial && '\n' !in rest
    ensures var now := Split(done + "\n" + partial, '\n');
      now[|now| - 1] == partial
    ensures Split(rest + "\n" + more, '\n')[0] == rest
  {
    SplitAppend(done, partial, '\n');
    SplitNoSeparator(partial, '\n');
    SplitAtSeparator(rest, more, '\n');
    assert rest + "\n" + more == rest + ['\n'] + more;
  }

  /** A separator splits a string into the pieces of either side. */
  lemma {:induction false} SplitAppend(a: string, b: string, c: char)
    ensures Split(a + [c] + b, c) == Split(a, c) + Split(b, c)
  {
    if a == [] {
      assert a + [c] + b == [c] + b;
      assert ([c] + b)[1..] == b;
    } else {
      var s := a + [c] + b;
      assert s[0] == a[0] && s[1..] == a[1..] + [c] + b;
      SplitAppend(a[1..], b, c);
    }
  }
}
