/** Exact transfers over a stream socket (calibration_supervisor.cpp, calibration_worker.cpp): the offset loops
    that turn short sends and receives into whole frames, under every finite schedule of socket outcomes. */
module Channel {
  import opened Results
  import opened WireBytes
  import opened WireFrame
  import opened WireSuccess
  import opened WireResult
  import opened WireSize

  /** What one socket call does: it is interrupted or would block, it moves up to `count` bytes, or the peer is
      gone.  A schedule that runs out stands for the passed deadline. */
  datatype Outcome = Retry | Moved(count: nat) | Closed

  /** How many of `most` bytes an outcome moves. */
  function Count(o: Outcome, most: nat): (n: nat)
    ensures n <= most
  {
    if o.Moved? then Min(o.count, most) else 0
  }

  /** Whether a schedule moves `want` bytes before it closes, stalls or runs out. */
  predicate Delivers(schedule: seq<Outcome>, want: nat)
    decreases |schedule|
  {
    want == 0 ||
    (schedule != [] &&
     match schedule[0]
     case Retry => Delivers(schedule[1..], want)
     case Moved(count) => count > 0 && Delivers(schedule[1..], want - Min(count, want))
     case Closed => false)
  }

  class Stream {
    var bytes: Bytes

    constructor (initial: Bytes)
      ensures bytes == initial
    {
      bytes := initial;
    }

    /** `write_all`, `write_plain_all` and `write_fd_frame`: every byte goes out, in order, exactly when the
        schedule delivers them all; otherwise a proper prefix was sent. */
    method WriteAll(data: Bytes, schedule: seq<Outcome>) returns (sent: bool)
      modifies this
      ensures sent <==> Delivers(schedule, |data|)
      ensures sent ==> bytes == old(bytes) + data
      ensures !sent ==> exists k: nat :: k < |data| && bytes == old(bytes) + data[..k]
    {
      var offset: nat := 0;
      var used: nat := 0;
      assert data[..0] == [] && old(bytes) + [] == old(bytes);
      assert schedule[0..] == schedule;
      while offset < |data|
        invariant offset <= |data| && used <= |schedule| && bytes == old(bytes) + data[..offset]
        invariant Delivers(schedule, |data|) == Delivers(schedule[used..], |data| - offset)
        decreases |schedule| - used
      {
        if used == |schedule| { return false; }
        var written := schedule[used];
        assert schedule[used..][1..] == schedule[used + 1..];
        used := used + 1;
        if written.Retry? { continue; }
        var n := Count(written, |data| - offset);
        if n == 0 { return false; }
        assert old(bytes) + data[..offset] + data[offset..offset + n] == old(bytes) + data[..offset + n];
        bytes := bytes + data[offset..offset + n];
        offset := offset + n;
      }
      assert data[..offset] == data;
      return true;
    }

    /** `read_exact`, `read_plain_exact` and `read_fd_exact`: exactly the next `size` bytes when they are there
        and the schedule delivers them, otherwise a failure that consumed fewer. */
    method ReadExact(size: nat, schedule: seq<Outcome>) returns (r: Option<Bytes>)
      modifies this
      ensures r.Some? <==> size <= |old(bytes)| && Delivers(schedule, size)
      ensures r.Some? ==> r.value == old(bytes)[..size] && bytes == old(bytes)[size..]
      ensures r.None? ==> exists k: nat :: k < size && k <= |old(bytes)| && bytes == old(bytes)[k..]
    {
      var offset: nat := 0;
      var destination: Bytes := [];
      var used: nat := 0;
      assert schedule[0..] == schedule;
      while offset < size
        invariant offset <= size && offset <= |old(bytes)| && used <= |schedule|
        invariant destination == old(bytes)[..offset] && bytes == old(bytes)[offset..]
        invariant Delivers(schedule, size) == Delivers(schedule[used..], size - offset)
          || (size > |old(bytes)|)
        decreases |schedule| - used
      {
        if used == |schedule| { return None; }
        var received := schedule[used];
        assert schedule[used..][1..] == schedule[used + 1..];
        used := used + 1;
        if received.Retry? { continue; }
        var n := Count(received, Min(size - offset, |bytes|));
        if n == 0 { return None; }
        assert old(bytes)[..offset] + old(bytes)[offset..][..n] == old(bytes)[..offset + n];
        assert old(bytes)[offset..][n..] == old(bytes)[offset + n..];
        destination := destination + bytes[..n];
        bytes := bytes[n..];
        offset := offset + n;
      }
      return Some(destination);
    }

    /** `read_frame` and `read_plain_frame`: header, then exactly the announced payload.  When the stream starts
        with a frame, that frame comes back and nothing after it is touched, unless the transport fails or the
        frame is a success over the caller's limit. */
    method ReadFrame(limit: nat, headerSchedule: seq<Outcome>, payloadSchedule: seq<Outcome>) returns (r: Option<Bytes>)
      modifies this
      ensures r.Some? ==> ParseFrame(r.value).Some?
      ensures forall m: Message, payload: Bytes, rest: Bytes ::
        Frame(m, payload).Some? && old(bytes) == Frame(m, payload).value + rest ==>
        && (r.Some? <==> AcceptedSize(m, |payload|, limit)
                         && Delivers(headerSchedule, HEADER_BYTES) && Delivers(payloadSchedule, |payload|))
        && (r.Some? ==> r.value == Frame(m, payload).value && bytes == rest)
    {
      hide EncHeader, DecHeader, Delivers;
      ghost var whole := bytes;
      forall m: Message, payload: Bytes, rest: Bytes | Frame(m, payload).Some? && whole == Frame(m, payload).value + rest
        ensures |whole| >= HEADER_BYTES && DecHeader(whole[..HEADER_BYTES]) == Some((m, |payload|))
        ensures whole[..HEADER_BYTES] == EncHeader(m, |payload|) && whole[HEADER_BYTES..] == payload + rest
      {
        HeaderStarts(whole, m, payload, rest);
      }
      var header := ReadExact(HEADER_BYTES, headerSchedule);
      if header.None? { return None; }
      var decoded := ReadHeader(header.value);
      if decoded.None? { return None; }
      var (m, size) := decoded.value;
      if m.Success? && (limit < HEADER_BYTES || size > limit - HEADER_BYTES) { return None; }
      var payload := ReadExact(size, payloadSchedule);
      if payload.None? { return None; }
      HeaderExact(header.value, m, size);
      FramingExact(header.value + payload.value, m, payload.value);
      assert forall p: Bytes, rest: Bytes :: |p| == size ==> (p + rest)[..size] == p && (p + rest)[size..] == rest;
      return Some(header.value + payload.value);
    }
  }

  /** The one limit a reader adds: a success payload no larger than the caller can have asked for. */
  predicate AcceptedSize(m: Message, size: nat, limit: nat) {
    m.Success? ==> HEADER_BYTES <= limit && size <= limit - HEADER_BYTES
  }

  lemma {:induction false} HeaderStarts(s: Bytes, m: Message, payload: Bytes, rest: Bytes)
    requires Frame(m, payload).Some? && s == Frame(m, payload).value + rest
    ensures |s| >= HEADER_BYTES && s[..HEADER_BYTES] == EncHeader(m, |payload|) && s[HEADER_BYTES..] == payload + rest
    ensures DecHeader(s[..HEADER_BYTES]) == Some((m, |payload|))
  {
    hide EncHeader, DecHeader;
    assert s == EncHeader(m, |payload|) + (payload + rest);
    HeaderExact(s[..HEADER_BYTES], m, |payload|);
  }

  /** A result within the requested frame and keypoint counts is never refused for its size. */
  lemma {:induction false} ConformingSizeAccepted(r: CalibrationResult, frames: nat, keypoints: nat)
    requires OkParts(r) && |r.perFrame| <= frames && PointsAtMost(r.perFrame, keypoints)
    requires MaximumSuccessFrame(frames, keypoints).Some?
    ensures AcceptedSize(Message.Success, |EncResult(r)|, MaximumSuccessFrame(frames, keypoints).value)
  {
    hide EncResult, OkParts;
    SuccessFrameBound(r, frames, keypoints);
  }
}
