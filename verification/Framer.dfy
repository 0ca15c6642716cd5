/** The stream framer: an incremental scanner that cuts a byte stream, delivered in
    arbitrary chunks, into brace-delimited messages (`buffer_update` in src/core/state.c,
    copied in src/api/middleware.c).

    `Feed` is the byte-at-a-time specification, `Buffer.Update` the chunk-at-a-time code,
    and `Partition` an independent description of what the frames of a stream are. */
module Framer {

  datatype Mode = Final | Json | Str2 | Esc2 | Str1 | Esc1

  /** Where the scanner stands between two bytes. */
  datatype Pos = Pos(mode: Mode, depth: int)

  /** The scanner with the bytes it holds back and the frames it has handed up. */
  datatype Scan = Scan(pos: Pos, partial: string, frames: seq<string>)

  const OUTSIDE := Pos(Final, 0)
  const FRESH := Scan(OUTSIDE, "", [])

  function Next(p: Pos, c: char): Pos {
    match p.mode
    case Final => if c == '{' then Pos(Json, p.depth + 1) else p
    case Json =>
      if c == '{' then Pos(Json, p.depth + 1)
      else if c == '}' then Pos(if p.depth == 1 then Final else Json, p.depth - 1)
      else if c == '"' then Pos(Str2, p.depth)
      else if c == '\'' then Pos(Str1, p.depth)
      else p
    case Str2 => if c == '\\' then Pos(Esc2, p.depth) else if c == '"' then Pos(Json, p.depth) else p
    case Esc2 => Pos(Str2, p.depth)
    case Str1 => if c == '\\' then Pos(Esc1, p.depth) else if c == '\'' then Pos(Json, p.depth) else p
    case Esc1 => Pos(Str1, p.depth)
  }

  function Walk(p: Pos, s: string): Pos
    decreases s
  {
    if s == "" then p else Walk(Next(p, s[0]), s[1..])
  }

  function Step(s: Scan, c: char): Scan {
    var q := Next(s.pos, c);
    if q.mode == Final then
      if s.pos.mode == Final then s else Scan(q, "", s.frames + [s.partial + [c]])
    else
      Scan(q, s.partial + [c], s.frames)
  }

  function Feed(s: Scan, bytes: string): Scan
    decreases bytes
  {
    if bytes == "" then s else Feed(Step(s, bytes[0]), bytes[1..])
  }

  function Join(chunks: seq<string>): string {
    if chunks == [] then "" else chunks[0] + Join(chunks[1..])
  }

  // ---------- Chunking ----------

  lemma {:induction false} WalkConcat(p: Pos, a: string, b: string)
    ensures Walk(p, a + b) == Walk(Walk(p, a), b)
    decreases a
  {
    if a == "" {
      assert a + b == b;
    } else {
      assert (a + b)[0] == a[0] && (a + b)[1..] == a[1..] + b;
      WalkConcat(Next(p, a[0]), a[1..], b);
    }
  }

  /** Two calls leave what one call on the joined bytes leaves, whatever the starting state. */
  lemma {:induction false} ChunkingInvariance(s: Scan, x: string, y: string)
    ensures Feed(Feed(s, x), y) == Feed(s, x + y)
    decreases x
  {
    if x == "" {
      assert x + y == y;
    } else {
      assert (x + y)[0] == x[0] && (x + y)[1..] == x[1..] + y;
      ChunkingInvariance(Step(s, x[0]), x[1..], y);
    }
  }

  /** Frames handed up earlier never influence the scan. */
  lemma {:induction false} FeedFromEmptyInbox(s: Scan, bytes: string)
    ensures Feed(s, bytes) ==
            var r := Feed(s.(frames := []), bytes); r.(frames := s.frames + r.frames)
    decreases bytes
  {
    if bytes != "" {
      var s1 := Step(s, bytes[0]);
      var e1 := Step(s.(frames := []), bytes[0]);
      FeedFromEmptyInbox(s1, bytes[1..]);
      FeedFromEmptyInbox(e1, bytes[1..]);
      assert s1.(frames := []) == e1.(frames := []);
      assert s1.frames == s.frames + e1.frames;
    }
  }

  /** The in-place scanner. `data` holds the bytes of an unfinished message. */
  class Buffer {
    var data: string
    var mode: Mode
    var brackets: int

    constructor ()
      ensures data == "" && mode == Final && brackets == 0
    {
      data, mode, brackets := "", Final, 0;
    }

    ghost function Abstract(frames: seq<string>): Scan
      reads this
    {
      Scan(Pos(mode, brackets), data, frames)
    }

    method Set(newBuf: string, newStart: nat, newEnd: nat)
      requires newStart <= newEnd <= |newBuf|
      modifies this`data
      ensures data == old(data) + newBuf[newStart..newEnd]
    {
      data := data + newBuf[newStart..newEnd];
    }

    method Reset()
      modifies this`data
      ensures data == ""
    {
      data := "";
    }

    /** Scans one chunk; `frames` lists the messages handed to the callback, in order. */
    method Update(newData: string) returns (frames: seq<string>)
      modifies this
      ensures Abstract(frames) == Feed(old(Abstract([])), newData)
    {
      frames := [];
      var i, wordStart := 0, 0;
      while i < |newData|
        invariant 0 <= wordStart <= i <= |newData|
        invariant Feed(old(Abstract([])), newData[..i]) ==
                  Abstract(frames).(partial := if mode == Final then data else data + newData[wordStart..i])
      {
        var c := newData[i];
        ghost var s := Abstract(frames).(partial := if mode == Final then data else data + newData[wordStart..i]);
        assert newData[..i + 1] == newData[..i] + [c];
        ChunkingInvariance(old(Abstract([])), newData[..i], [c]);
        assert Feed(s, [c]) == Step(s, c);
        assert data + newData[wordStart..i + 1] == (data + newData[wordStart..i]) + [c];
        assert newData[i..i + 1] == [c];
        match mode {
          case Final =>
            if c == '{' {
              brackets := brackets + 1;
              wordStart := i;
              mode := Json;
            }
          case Json =>
            if c == '{' {
              brackets := brackets + 1;
            } else if c == '}' {
              brackets := brackets - 1;
              if brackets == 0 {
                mode := Final;
                Set(newData, wordStart, i + 1);
                frames := frames + [data];
                Reset();
                wordStart := i + 1;
              }
            } else if c == '"' {
              mode := Str2;
            } else if c == '\'' {
              mode := Str1;
            }
          case Str1 =>
            if c == '\\' {
              mode := Esc1;
            } else if c == '\'' {
              mode := Json;
            }
          case Esc1 => mode := Str1;
          case Str2 =>
            if c == '\\' {
              mode := Esc2;
            } else if c == '"' {
              mode := Json;
            }
          case Esc2 => mode := Str2;
        }
        i := i + 1;
      }
      assert newData[..|newData|] == newData;
      if wordStart < |newData| && mode != Final {
        Set(newData, wordStart, |newData|);
      }
    }

    /** What a connection does over its life: any cut of the stream into chunks. */
    method UpdateAll(chunks: seq<string>) returns (frames: seq<string>)
      modifies this
      ensures Abstract(frames) == Feed(old(Abstract([])), Join(chunks))
    {
      frames := [];
      var i := 0;
      while i < |chunks|
        invariant 0 <= i <= |chunks|
        invariant Abstract(frames) == Feed(old(Abstract([])), Join(chunks[..i]))
      {
        var more := Update(chunks[i]);
        OneMoreChunk(old(Abstract([])), chunks, i);
        frames := frames + more;
        i := i + 1;
      }
      assert chunks[..i] == chunks;
    }
  }

  lemma {:induction false} JoinSnoc(chunks: seq<string>, last: string)
    ensures Join(chunks + [last]) == Join(chunks) + last
  {
    if chunks == [] {
      assert Join([last]) == last + Join([last][1..]);
    } else {
      assert (chunks + [last])[0] == chunks[0] && (chunks + [last])[1..] == chunks[1..] + [last];
      JoinSnoc(chunks[1..], last);
    }
  }

  // ---------- What a frame is ----------

  /** What one more chunk does to a stream scanned so far. */
  lemma OneMoreChunk(start: Scan, chunks: seq<string>, i: nat)
    requires i < |chunks|
    ensures var s := Feed(start, Join(chunks[..i]));
            var d := Feed(s.(frames := []), chunks[i]);
            Feed(start, Join(chunks[..i + 1])) == d.(frames := s.frames + d.frames)
  {
    assert chunks[..i + 1] == chunks[..i] + [chunks[i]];
    JoinSnoc(chunks[..i], chunks[i]);
    ChunkingInvariance(start, Join(chunks[..i]), chunks[i]);
    FeedFromEmptyInbox(Feed(start, Join(chunks[..i])), chunks[i]);
  }

  /** No prefix of `s`, scanned from `p`, reaches the outside again. */
  predicate Stays(p: Pos, s: string)
    decreases s
  {
    s == "" || (Next(p, s[0]).mode != Final && Stays(Next(p, s[0]), s[1..]))
  }

  /** Starts with '{', ends exactly where the braces balance outside quoted runs, not before. */
  predicate IsFrame(f: string) {
    |f| > 0 && Stays(OUTSIDE, f[..|f| - 1]) && f[0] == '{' && Walk(OUTSIDE, f) == OUTSIDE
  }

  predicate IsGap(s: string) {
    '{' !in s
  }

  /** An unfinished message: nothing yet, or a frame that has not closed. */
  predicate IsOpenTail(s: string) {
    s == "" || (s[0] == '{' && Stays(OUTSIDE, s))
  }

  /** gap, frame, gap, frame, ... , gap */
  function Weave(gaps: seq<string>, frames: seq<string>): string
    requires |gaps| == |frames| + 1
  {
    if frames == [] then gaps[0] else gaps[0] + frames[0] + Weave(gaps[1..], frames[1..])
  }

  ghost predicate Partition(t: string, gaps: seq<string>, frames: seq<string>, tail: string) {
    && |gaps| == |frames| + 1
    && (forall g | g in gaps :: IsGap(g))
    && (forall f | f in frames :: IsFrame(f))
    && IsOpenTail(tail)
    && t == Weave(gaps, frames) + tail
  }

  lemma {:induction false} StaysConcat(p: Pos, a: string, b: string)
    ensures Stays(p, a + b) <==> Stays(p, a) && Stays(Walk(p, a), b)
    decreases a
  {
    if a == "" {
      assert a + b == b;
    } else {
      assert (a + b)[0] == a[0] && (a + b)[1..] == a[1..] + b;
      StaysConcat(Next(p, a[0]), a[1..], b);
    }
  }

  /** While the walk stays inside, bytes only pile up. */
  lemma {:induction false} FeedInside(s: Scan, bytes: string)
    requires Stays(s.pos, bytes)
    ensures Feed(s, bytes) == Scan(Walk(s.pos, bytes), s.partial + bytes, s.frames)
    decreases bytes
  {
    if bytes == "" {
      assert s.partial + bytes == s.partial;
    } else {
      FeedInside(Step(s, bytes[0]), bytes[1..]);
      assert s.partial + [bytes[0]] + bytes[1..] == s.partial + bytes;
    }
  }

  lemma {:induction false} FeedGap(s: Scan, gap: string)
    requires s.pos.mode == Final && IsGap(gap)
    ensures Feed(s, gap) == s
  {
    if gap != "" {
      assert gap[0] in gap;
      assert forall c | c in gap[1..] :: c in gap;
      FeedGap(s, gap[1..]);
    }
  }

  lemma FeedFrame(frames: seq<string>, f: string)
    requires IsFrame(f)
    ensures Feed(Scan(OUTSIDE, "", frames), f) == Scan(OUTSIDE, "", frames + [f])
  {
    var body, last := f[..|f| - 1], f[|f| - 1];
    var s := Scan(OUTSIDE, "", frames);
    assert f == body + [last];
    FeedInside(s, body);
    ChunkingInvariance(s, body, [last]);
    WalkConcat(OUTSIDE, body, [last]);
    assert Walk(OUTSIDE, f) == Next(Walk(OUTSIDE, body), last);
    StaysEnd(OUTSIDE, body);
    assert "" + body + [last] == f;
  }

  /** Frames sent back to back come out one by one. */
  lemma {:induction false} FramesBackToBack(before: seq<string>, frames: seq<string>)
    requires forall f | f in frames :: IsFrame(f)
    ensures Feed(Scan(OUTSIDE, "", before), Join(frames)) == Scan(OUTSIDE, "", before + frames)
    decreases frames
  {
    if frames == [] {
      assert before + frames == before;
    } else {
      assert frames[0] in frames && forall f | f in frames[1..] :: f in frames;
      FeedFrame(before, frames[0]);
      ChunkingInvariance(Scan(OUTSIDE, "", before), frames[0], Join(frames[1..]));
      FramesBackToBack(before + [frames[0]], frames[1..]);
      assert before + [frames[0]] + frames[1..] == before + frames;
    }
  }

  lemma {:induction false} StaysEnd(p: Pos, s: string)
    requires Stays(p, s) && (s != "" || p.mode != Final)
    ensures Walk(p, s).mode != Final
    decreases s
  {
    if s != "" { StaysEnd(Next(p, s[0]), s[1..]); }
  }

  /** Completeness: any partition of a stream into gaps, frames and a tail is the scanner's own. */
  lemma {:induction false} PartitionIsScanned(before: seq<string>, t: string, gaps: seq<string>,
                                                frames: seq<string>, tail: string)
    requires Partition(t, gaps, frames, tail)
    ensures Feed(Scan(OUTSIDE, "", before), t) ==
            Scan(Walk(OUTSIDE, tail), tail, before + frames)
    decreases |frames|
  {
    assert gaps[0] in gaps;
    if frames == [] {
      var s := Scan(OUTSIDE, "", before);
      FeedGap(s, gaps[0]);
      ChunkingInvariance(s, gaps[0], tail);
      FeedInside(s, tail);
      assert before + frames == before && "" + tail == tail;
    } else {
      var rest := Weave(gaps[1..], frames[1..]) + tail;
      assert t == gaps[0] + frames[0] + rest;
      assert frames[0] in frames && forall g | g in gaps[1..] :: g in gaps;
      assert forall f | f in frames[1..] :: f in frames;
      FeedGapThenFrame(before, gaps[0], frames[0], rest);
      PartitionIsScanned(before + [frames[0]], rest, gaps[1..], frames[1..], tail);
      assert before + [frames[0]] + frames[1..] == before + frames;
    }
  }

  lemma FeedGapThenFrame(before: seq<string>, gap: string, frame: string, rest: string)
    requires IsGap(gap) && IsFrame(frame)
    ensures Feed(Scan(OUTSIDE, "", before), gap + frame + rest) == Feed(Scan(OUTSIDE, "", before + [frame]), rest)
  {
    var s := Scan(OUTSIDE, "", before);
    FeedGap(s, gap);
    FeedFrame(before, frame);
    ChunkingInvariance(s, gap, frame);
    ChunkingInvariance(s, gap + frame, rest);
  }

  /** What every reachable scanner state satisfies. */
  predicate WellPlaced(s: Scan) {
    && (s.pos.mode == Final <==> s.pos.depth == 0)
    && s.pos.depth >= 0
    && IsOpenTail(s.partial)
    && Walk(OUTSIDE, s.partial) == s.pos
    && (s.partial == "" <==> s.pos.mode == Final)
  }

  lemma StepKeepsPlace(s0: Scan, c: char)
    requires WellPlaced(s0)
    ensures WellPlaced(Step(s0, c))
    ensures s0.pos.mode != Final && Next(s0.pos, c).mode == Final ==> IsFrame(s0.partial + [c])
  {
    WalkConcat(OUTSIDE, s0.partial, [c]);
    StaysConcat(OUTSIDE, s0.partial, [c]);
    assert Walk(s0.pos, [c]) == Next(s0.pos, c);
    assert (s0.partial + [c])[..|s0.partial|] == s0.partial;
  }

  /** Soundness: whatever the stream, the frames handed up and the bytes skipped partition it. */
  lemma {:induction false} ScannedIsPartition(t: string) returns (gaps: seq<string>)
    ensures WellPlaced(Feed(FRESH, t))
    ensures Partition(t, gaps, Feed(FRESH, t).frames, Feed(FRESH, t).partial)
  {
    if t == "" {
      gaps := [""];
      assert Weave(gaps, []) + "" == t;
    } else {
      var t0, c := t[..|t| - 1], t[|t| - 1];
      assert t == t0 + [c];
      var g0 := ScannedIsPartition(t0);
      ChunkingInvariance(FRESH, t0, [c]);
      var s0 := Feed(FRESH, t0);
      assert Feed(s0, [c]) == Step(s0, c);
      StepKeepsPlace(s0, c);
      gaps := StepExtendsPartition(t0, g0, s0, c);
    }
  }

  lemma StepExtendsPartition(t0: string, g0: seq<string>, s0: Scan, c: char) returns (gaps: seq<string>)
    requires WellPlaced(s0) && Partition(t0, g0, s0.frames, s0.partial)
    requires WellPlaced(Step(s0, c))
    requires s0.pos.mode != Final && Next(s0.pos, c).mode == Final ==> IsFrame(s0.partial + [c])
    ensures Partition(t0 + [c], gaps, Step(s0, c).frames, Step(s0, c).partial)
  {
    if Next(s0.pos, c).mode != Final {
      gaps := g0;
      assert t0 + [c] == Weave(gaps, s0.frames) + (s0.partial + [c]);
    } else if s0.pos.mode == Final {
      gaps := g0[..|g0| - 1] + [g0[|g0| - 1] + [c]];
      WeaveLongerGap(g0, s0.frames, [c]);
      LastGap(g0, c);
      assert t0 + [c] == Weave(gaps, s0.frames) + "";
    } else {
      var f := s0.partial + [c];
      gaps := g0 + [""];
      WeaveSnoc(g0, s0.frames, f);
      assert t0 + [c] == Weave(g0, s0.frames) + f == Weave(gaps, s0.frames + [f]) + "";
    }
  }

  lemma LastGap(g0: seq<string>, c: char)
    requires |g0| > 0 && c != '{' && forall g | g in g0 :: IsGap(g)
    ensures forall g | g in g0[..|g0| - 1] + [g0[|g0| - 1] + [c]] :: IsGap(g)
  {
    var last := g0[|g0| - 1] + [c];
    assert IsGap(g0[|g0| - 1]);
    forall g | g in g0[..|g0| - 1] + [last] ensures IsGap(g) {
      if g != last { assert g in g0; }
    }
  }

  lemma {:induction false} WeaveLongerGap(gaps: seq<string>, frames: seq<string>, more: string)
    requires |gaps| == |frames| + 1
    ensures Weave(gaps[..|gaps| - 1] + [gaps[|gaps| - 1] + more], frames) == Weave(gaps, frames) + more
  {
    var longer := gaps[..|gaps| - 1] + [gaps[|gaps| - 1] + more];
    if frames != [] {
      WeaveLongerGap(gaps[1..], frames[1..], more);
      assert longer[1..] == gaps[1..][..|gaps| - 2] + [gaps[1..][|gaps| - 2] + more];
    }
  }

  lemma {:induction false} WeaveSnoc(gaps: seq<string>, frames: seq<string>, f: string)
    requires |gaps| == |frames| + 1
    ensures Weave(gaps + [""], frames + [f]) == Weave(gaps, frames) + f
  {
    if frames == [] {
      assert (gaps + [""])[1..] == [""] && (frames + [f])[1..] == [];
      assert Weave([""], []) == "";
    } else {
      WeaveSnoc(gaps[1..], frames[1..], f);
      assert (gaps + [""])[1..] == gaps[1..] + [""];
      assert (frames + [f])[1..] == frames[1..] + [f];
    }
  }

  /** The frames of a stream are the ones of its partition, and there is no other partition:
      for any bytes, chunked in any way, the framer hands up exactly these messages. */
  lemma FramesArePartition(t: string, frames: seq<string>, tail: string)
    ensures (exists gaps :: Partition(t, gaps, frames, tail)) <==>
            Feed(FRESH, t) == Scan(Walk(OUTSIDE, tail), tail, frames)
  {
    var g := ScannedIsPartition(t);
    if gaps :| Partition(t, gaps, frames, tail) {
      PartitionIsScanned([], t, gaps, frames, tail);
      assert [] + frames == frames;
    }
  }

  /** Every message handed up is a frame, hence starts with '{' and ends with '}'. */
  lemma EmittedAreFrames(t: string, f: string)
    requires f in Feed(FRESH, t).frames
    ensures IsFrame(f) && |f| >= 2 && f[0] == '{' && f[|f| - 1] == '}'
    ensures forall k | 0 < k < |f| :: Walk(OUTSIDE, f[..k]).mode != Final
  {
    var g := ScannedIsPartition(t);
    var body, last := f[..|f| - 1], f[|f| - 1];
    assert f == body + [last];
    WalkConcat(OUTSIDE, body, [last]);
    assert Walk(Walk(OUTSIDE, body), [last]) == Next(Walk(OUTSIDE, body), last);
    StaysEnd(OUTSIDE, body);
    forall k | 0 < k < |f| ensures Walk(OUTSIDE, f[..k]).mode != Final {
      assert body == f[..k] + body[k..];
      StaysConcat(OUTSIDE, f[..k], body[k..]);
      StaysEnd(OUTSIDE, f[..k]);
    }
  }
}
