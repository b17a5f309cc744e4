/** What stray bytes in front of a frame cost: a failed attempt slides one byte and ends the drain, so the
    stream catches up by one byte a chunk. */
module Noise {
  import opened Bytes
  import opened Framing

  predicate Slides(v: Verdict) { v.SlideBad? || v.SlideCrc? }

  /** An attempt at any of the first `n` bytes is refused, whatever the ring holds behind the queue. */
  ghost predicate Refused(q: seq<Byte>, n: nat, tcp: bool)
    requires n <= |q|
  {
    forall i, stale :: 0 <= i < n ==> Slides(Inspect(q[i..], stale, tcp))
  }

  /** What is refused stays refused when more bytes arrive. */
  lemma RefusalStands(q: seq<Byte>, more: seq<Byte>, stale: Byte, tcp: bool)
    requires forall b :: Slides(Inspect(q, b, tcp))
    ensures Slides(Inspect(q + more, stale, tcp))
  {
    var all := q + more;
    if tcp {
      assert Slides(Inspect(q, 0x80, tcp));
      assert all[4] == q[4] && all[5] == q[5] && all[7] == q[7];
    } else {
      assert Slides(Inspect(q, 0, tcp));
      assert all[1] == q[1] && all[2] == q[2];
      var expected := RtuLength(q[1], q[2]);
      if expected > 0 {
        assert all[..expected] == q[..expected];
      }
    }
  }

  lemma OneSlide(s: Stream, stale: Byte, tcp: bool)
    requires Slides(Inspect(s.q, stale, tcp)) && s.slid + 1 < MAX_HUNT
    ensures var r := Drain(s, stale, tcp);
      r.1 == [] && r.0.q == s.q[1..] && r.0.slid == s.slid + 1
  {
  }

  /** So many chunks deliver nothing, and the next one delivers the frame first, whatever else they hold. */
  ghost predicate Costs(s: Stream, noise: seq<Byte>, f: seq<Byte>, rest: seq<Byte>, chunks: seq<seq<Byte>>,
                        r: (Stream, seq<seq<Byte>>))
    requires chunks != []
  {
    if |chunks| <= |noise| then
      r.1 == [] && r.0.slid == s.slid + |chunks| && r.0.q == noise[|chunks|..] + f + rest + Flatten(chunks[1..])
    else r.1 != [] && r.1[0] == f
  }

  /** Stray bytes `noise` in front of a good frame, each refused when its turn comes, cost one chunk each. */
  lemma {:induction false} NoiseCosts(s: Stream, noise: seq<Byte>, f: seq<Byte>, rest: seq<Byte>,
                                      chunks: seq<seq<Byte>>, stales: seq<Byte>, tcp: bool)
    requires |chunks| == |stales| && chunks != [] && s.q + chunks[0] == noise + f + rest
    requires Good(f, tcp) && Refused(noise + f, |noise|, tcp)
    requires NeverOverfills(s, chunks, stales, tcp) && s.slid + |noise| < MAX_HUNT
    ensures Costs(s, noise, f, rest, chunks, Run(s, chunks, stales, tcp))
    decreases |chunks|
  {
    var s0 := s.(q := s.q + chunks[0]);
    var (s1, frames) := Drain(s0, stales[0], tcp);
    FirstDrain(noise, f, rest, s0, stales[0], tcp);
    hide *;
    FirstChunk(s, chunks, stales, tcp);
    var r := Run(s1, chunks[1..], stales[1..], tcp);
    if noise == [] {
      TakenFirst(s, f, rest, chunks, frames, r);
    } else if |chunks| == 1 {
      OneChunk(s, s1, noise, f, rest, chunks, stales[1..], tcp);
    } else {
      RefusedLater(noise, f, tcp);
      Regrouped(s1.q, noise[1..], f, rest, chunks[1]);
      NoiseCosts(s1, noise[1..], f, rest + chunks[1], chunks[1..], stales[1..], tcp);
      CostsMore(s, s1, noise, f, rest, chunks, r);
    }
  }

  /** The first chunk: the frame, or one byte slid. */
  lemma FirstDrain(noise: seq<Byte>, f: seq<Byte>, rest: seq<Byte>, s0: Stream, stale: Byte, tcp: bool)
    requires s0.q == noise + f + rest && Good(f, tcp) && Refused(noise + f, |noise|, tcp)
    requires s0.slid + |noise| < MAX_HUNT
    ensures var (s1, frames) := Drain(s0, stale, tcp);
      if noise == [] then frames != [] && frames[0] == f
      else frames == [] && s1.slid == s0.slid + 1 && s1.q == noise[1..] + f + rest
  {
    hide Good;
    hide Drain;
    if noise == [] {
      assert s0.q == f + rest;
      DrainTakes(s0, f, rest, stale, tcp);
    } else {
      FirstRefused(noise, f, rest, stale, tcp);
      OneSlide(s0, stale, tcp);
    }
  }

  lemma TakenFirst(s: Stream, f: seq<Byte>, rest: seq<Byte>, chunks: seq<seq<Byte>>, frames: seq<seq<Byte>>,
                   r: (Stream, seq<seq<Byte>>))
    requires chunks != [] && frames != [] && frames[0] == f
    ensures Costs(s, [], f, rest, chunks, (r.0, frames + r.1))
  {
  }

  lemma OneChunk(s: Stream, s1: Stream, noise: seq<Byte>, f: seq<Byte>, rest: seq<Byte>, chunks: seq<seq<Byte>>,
                 stales: seq<Byte>, tcp: bool)
    requires |chunks| == 1 && noise != [] && stales == [] && s1.slid == s.slid + 1
    requires s1.q == noise[1..] + f + rest
    ensures Costs(s, noise, f, rest, chunks,
                  (Run(s1, chunks[1..], stales, tcp).0, [] + Run(s1, chunks[1..], stales, tcp).1))
  {
    assert chunks[1..] == [];
    assert noise[1..] + f + rest + [] == noise[1..] + f + rest;
  }

  lemma Regrouped(q: seq<Byte>, noise: seq<Byte>, f: seq<Byte>, rest: seq<Byte>, chunk: seq<Byte>)
    requires q == noise + f + rest
    ensures q + chunk == noise + f + (rest + chunk)
  {
  }

  lemma CostsMore(s: Stream, s1: Stream, noise: seq<Byte>, f: seq<Byte>, rest: seq<Byte>, chunks: seq<seq<Byte>>,
                  r: (Stream, seq<seq<Byte>>))
    requires |chunks| > 1 && noise != [] && s1.slid == s.slid + 1
    requires Costs(s1, noise[1..], f, rest + chunks[1], chunks[1..], r)
    ensures Costs(s, noise, f, rest, chunks, (r.0, [] + r.1))
  {
    assert [] + r.1 == r.1;
    if |chunks| <= |noise| {
      var left := noise[1..][|chunks| - 1..];
      assert left == noise[|chunks|..] && chunks[1..][1..] == chunks[2..];
      assert left + f + (rest + chunks[1]) + Flatten(chunks[2..])
        == left + f + rest + (chunks[1] + Flatten(chunks[2..]));
    }
  }

  lemma FirstRefused(noise: seq<Byte>, f: seq<Byte>, rest: seq<Byte>, stale: Byte, tcp: bool)
    requires noise != [] && Refused(noise + f, |noise|, tcp)
    ensures Slides(Inspect(noise + f + rest, stale, tcp))
  {
    assert (noise + f)[0..] == noise + f;
    hide Inspect;
    forall b ensures Slides(Inspect(noise + f, b, tcp)) {
      assert Slides(Inspect((noise + f)[0..], b, tcp));
    }
    RefusalStands(noise + f, rest, stale, tcp);
  }

  lemma RefusedLater(noise: seq<Byte>, f: seq<Byte>, tcp: bool)
    requires noise != [] && Refused(noise + f, |noise|, tcp)
    ensures Refused(noise[1..] + f, |noise| - 1, tcp)
  {
    forall i, stale | 0 <= i < |noise| - 1 ensures Slides(Inspect((noise[1..] + f)[i..], stale, tcp)) {
      assert (noise[1..] + f)[i..] == (noise + f)[i + 1..];
    }
    hide Inspect;
  }

  // ---- stray bytes that are refused ----

  /** On a serial line any number of zero bytes in front of a reply is refused, unless the unit id reads
      like a function code. */
  lemma ZerosRefused(n: nat, f: seq<Byte>)
    requires Good(f, false) && RtuLength(f[0], 0) == 0
    ensures Refused(seq(n, _ => 0) + f, n, false)
  {
    var q: seq<Byte> := seq(n, _ => 0) + f;
    forall i, stale | 0 <= i < n ensures Slides(Inspect(q[i..], stale, false)) {
      assert q[i..][1] == q[i + 1] == if i + 1 < n then 0 else f[0];
    }
  }

  /** A reply of the engine's slaves as far as framing looks at it: protocol 0, a short length, a unit id
      and a function code below 0x80. */
  ghost predicate ShortReply(f: seq<Byte>) {
    Good(f, true) && f[2] == f[3] == f[4] == 0 && f[5] < 0x80 && f[6] < 0x80
  }

  /** Over TCP one or two stray bytes in front of such a reply are always refused; three are if and only
      if the low byte of the transaction id is zero or above 15. Otherwise the id is read as a length, and
      the stream waits for that many bytes. */
  lemma StrayBytes(noise: seq<Byte>, f: seq<Byte>)
    requires ShortReply(f)
    ensures |noise| <= 2 ==> Refused(noise + f, |noise|, true)
    ensures |noise| == 3 ==> (Refused(noise + f, 3, true) <==> f[1] == 0 || f[1] > 15)
    ensures |noise| == 3 && 1 <= f[1] <= 15 ==> forall stale :: Inspect(noise + f, stale, true) == Wait
  {
    var q := noise + f;
    forall i, stale | 0 <= i < |noise| <= 3
      ensures Slides(Inspect(q[i..], stale, true)) <==> |noise| - i < 3 || f[1] == 0 || f[1] > 15
    {
      StrayAt(q, f, i, |noise| - i, stale);
    }
    if |noise| == 3 {
      assert q[0..] == q;
      assert Slides(Inspect(q[0..], 0, true)) <==> f[1] == 0 || f[1] > 15;
      forall stale ensures 1 <= f[1] <= 15 ==> Inspect(q, stale, true) == Wait {
        StrayAt(q, f, 0, 3, stale);
      }
    }
    hide Inspect;
  }

  lemma StrayAt(q: seq<Byte>, f: seq<Byte>, i: nat, left: nat, stale: Byte)
    requires ShortReply(f) && 1 <= left <= 3 && |q| == i + left + |f| && q[i + left..] == f
    ensures Slides(Inspect(q[i..], stale, true)) <==> left < 3 || f[1] == 0 || f[1] > 15
    ensures !Slides(Inspect(q[i..], stale, true)) ==> Inspect(q[i..], stale, true) == Wait
  {
    var p := q[i..];
    forall k: nat | k < |f| ensures p[left + k] == f[k] {
      assert q[i + left..][k] == f[k];
    }
    assert p[4] == f[4 - left] && p[5] == f[5 - left] && p[7] == f[7 - left];
  }
}
