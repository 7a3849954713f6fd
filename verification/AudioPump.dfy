/** The output callback: blocks of the graph, cut up to whatever sizes the sound card asks for. */
module AudioPump {
  import opened AudioGraph
  import Bits

  /** A sample as the sound card takes it. */
  type Single = real

  /** A graph and the block it put out last, read up to `offset`. */
  datatype Cursor = Cursor(nodes: seq<Node>, wires: Wires, block: Block, offset: nat)

  /** The state in which the next frame is read: a block that is used up is replaced by the next one. */
  function Refilled(c: Cursor): Cursor {
    if c.offset >= BLOCK_SAMPLES then Cursor(Passed(c.nodes, c.wires), c.wires, LastBlock(c.nodes, c.wires), 0) else c
  }

  function Read(c: Cursor): (Cursor, Sample) {
    var r := Refilled(c);
    (r.(offset := r.offset + 1), r.block[r.offset])
  }

  function After(c: Cursor, n: nat): Cursor {
    if n == 0 then c else Read(After(c, n - 1)).0
  }

  /** The samples of the next `n` frames. */
  function Samples(c: Cursor, n: nat): (s: seq<Sample>)
    ensures |s| == n
  {
    if n == 0 then [] else Samples(c, n - 1) + [Read(After(c, n - 1)).1]
  }

  /** What the frames from `start` on read does not depend on how the ones before were grouped. */
  lemma {:induction false} ReadOn(c: Cursor, a: nat, b: nat)
    ensures After(c, a + b) == After(After(c, a), b)
    ensures Samples(c, a + b) == Samples(c, a) + Samples(After(c, a), b)
    decreases b
  {
    hide Read;
    if b == 0 {
      assert Samples(c, a) + [] == Samples(c, a);
    } else {
      ReadOn(c, a, b - 1);
    }
  }

  /** The output for some frames: each sample on every channel. */
  function Frames(samples: seq<Sample>, channels: nat, narrow: Sample -> Single): (out: seq<Single>)
    ensures |out| == |samples| * channels
  {
    if samples == [] then []
    else
      assert |samples| * channels == (|samples| - 1) * channels + channels;
      Frames(samples[..|samples| - 1], channels, narrow) + seq(channels, _ => narrow(samples[|samples| - 1]))
  }

  /** Value `i` of the output is that of frame `i / channels`. */
  lemma {:induction false} FrameAt(samples: seq<Sample>, channels: nat, narrow: Sample -> Single, i: nat)
    requires channels > 0 && i < |samples| * channels
    ensures i / channels < |samples| && Frames(samples, channels, narrow)[i] == narrow(samples[i / channels])
  {
    var n := |samples| - 1;
    assert |samples| * channels == n * channels + channels;
    if i < n * channels {
      FrameAt(samples[..n], channels, narrow, i);
    } else {
      FrameOf(i, n, channels);
    }
  }

  lemma EachFrame(samples: seq<Sample>, channels: nat, narrow: Sample -> Single, out: seq<Single>)
    requires channels > 0 && |out| <= |Frames(samples, channels, narrow)|
    requires out == Frames(samples, channels, narrow)[..|out|]
    ensures forall i :: 0 <= i < |out| ==> i / channels < |samples| && out[i] == narrow(samples[i / channels])
  {
    hide Frames;
    forall i | 0 <= i < |out|
      ensures i / channels < |samples| && out[i] == narrow(samples[i / channels])
    {
      FrameAt(samples, channels, narrow, i);
    }
  }

  lemma FrameOf(i: nat, n: nat, channels: nat)
    requires channels > 0 && n * channels <= i < n * channels + channels
    ensures i / channels == n
  {
    assert i == channels * n + (i - n * channels);
    Bits.Quotient(i, channels, n, i - n * channels);
  }

  lemma {:induction false} FramesAppend(a: seq<Sample>, b: seq<Sample>, channels: nat, narrow: Sample -> Single)
    ensures Frames(a + b, channels, narrow) == Frames(a, channels, narrow) + Frames(b, channels, narrow)
    decreases |b|
  {
    if b == [] {
      assert a + b == a;
      assert Frames(a, channels, narrow) + [] == Frames(a, channels, narrow);
    } else {
      var n := |b| - 1;
      assert (a + b)[..|a + b| - 1] == a + b[..n];
      FramesAppend(a, b[..n], channels, narrow);
    }
  }

  function Sum(sizes: seq<nat>): nat {
    if sizes == [] then 0 else sizes[0] + Sum(sizes[1..])
  }

  /** What a sequence of callbacks puts out, each for some number of frames. */
  function Callbacks(c: Cursor, sizes: seq<nat>, channels: nat, narrow: Sample -> Single): seq<Single>
    decreases sizes
  {
    if sizes == [] then []
    else Frames(Samples(c, sizes[0]), channels, narrow) + Callbacks(After(c, sizes[0]), sizes[1..], channels, narrow)
  }

  /** However the frames are split into callbacks, the output is that of one callback for all of them. */
  lemma {:induction false} SplitDoesNotMatter(c: Cursor, sizes: seq<nat>, channels: nat, narrow: Sample -> Single)
    ensures Callbacks(c, sizes, channels, narrow) == Frames(Samples(c, Sum(sizes)), channels, narrow)
    decreases sizes
  {
    hide Samples, After, Frames;
    if sizes == [] {
      NoFrames(c, channels, narrow);
    } else {
      var n, rest := sizes[0], Sum(sizes[1..]);
      SplitDoesNotMatter(After(c, n), sizes[1..], channels, narrow);
      ReadOn(c, n, rest);
      FramesAppend(Samples(c, n), Samples(After(c, n), rest), channels, narrow);
    }
  }

  lemma NoFrames(c: Cursor, channels: nat, narrow: Sample -> Single)
    ensures Frames(Samples(c, 0), channels, narrow) == []
  {
  }

  /** The block that the graph puts out in pass `k`. */
  function BlockOf(nodes: seq<Node>, wires: Wires, k: nat): Block { LastBlock(Passes(nodes, wires, k), wires) }

  function Number(frame: nat): nat { frame / BLOCK_SAMPLES }

  function Offset(frame: nat): (o: nat)
    ensures o < BLOCK_SAMPLES
  {
    frame % BLOCK_SAMPLES
  }

  /** Just after frame `i` was read: at the place after it in its block. */
  function AtFrame(c: Cursor, i: nat): Cursor {
    Cursor(Passes(c.nodes, c.wires, Number(i) + 1), c.wires, BlockOf(c.nodes, c.wires, Number(i)), Offset(i) + 1)
  }

  function SampleAt(c: Cursor, i: nat): Sample { BlockOf(c.nodes, c.wires, Number(i))[Offset(i)] }

  /** From the start, frame `i` is sample `i % 64` of block `i / 64`: nothing is lost or repeated at any edge. */
  lemma {:induction false} SamplesAreBlocks(c: Cursor, n: nat)
    requires c.offset == BLOCK_SAMPLES
    ensures forall i :: 0 <= i < n ==> Samples(c, n)[i] == SampleAt(c, i)
    ensures n > 0 ==> After(c, n) == AtFrame(c, n - 1)
    decreases n
  {
    hide *;
    if n > 0 {
      SamplesAreBlocks(c, n - 1);
      ReadFrom(c, n);
      if n == 1 {
        FirstBlock(c);
      } else {
        NextBlock(c, n - 2);
      }
    }
  }

  lemma ReadFrom(c: Cursor, n: nat)
    requires n > 0
    ensures After(c, n) == Read(After(c, n - 1)).0
    ensures Samples(c, n) == Samples(c, n - 1) + [Read(After(c, n - 1)).1]
  {
  }

  lemma FirstBlock(c: Cursor)
    requires c.offset == BLOCK_SAMPLES
    ensures Read(After(c, 0)) == (AtFrame(c, 0), SampleAt(c, 0))
  {
    hide LastBlock, Passed;
    assert Passes(c.nodes, c.wires, 0) == c.nodes && Passes(c.nodes, c.wires, 1) == Passed(c.nodes, c.wires);
  }

  lemma NextBlock(c: Cursor, i: nat)
    ensures Read(AtFrame(c, i)) == (AtFrame(c, i + 1), SampleAt(c, i + 1))
  {
    hide LastBlock, Passed;
    if Offset(i) + 1 == BLOCK_SAMPLES {
      assert Number(i + 1) == Number(i) + 1 && Offset(i + 1) == 0;
      assert Passes(c.nodes, c.wires, Number(i) + 2) == Passed(Passes(c.nodes, c.wires, Number(i) + 1), c.wires);
    } else {
      assert Number(i + 1) == Number(i) && Offset(i + 1) == Offset(i) + 1;
    }
  }

  class Pump {
    const graph: Graph
    const narrow: Sample -> Single
    var currentBlock: Block
    var blockOffset: nat

    ghost predicate Valid()
      reads this, graph
    {
      graph.Valid()
    }

    ghost function At(): Cursor
      reads this, graph
    {
      Cursor(graph.nodes, graph.connections, currentBlock, blockOffset)
    }

    /** No block has been generated yet. */
    constructor (graph: Graph, narrow: Sample -> Single)
      requires graph.Valid()
      ensures Valid() && this.graph == graph && this.narrow == narrow
      ensures At() == Cursor(graph.nodes, graph.connections, Silence(), BLOCK_SAMPLES)
    {
      this.graph, this.narrow, currentBlock, blockOffset := graph, narrow, Silence(), BLOCK_SAMPLES;
    }

    /** The sample of the next frame, from a new block if the present one is used up. */
    method NextSample() returns (sample: Sample)
      requires Valid()
      modifies this`currentBlock, this`blockOffset, graph
      ensures Valid() && (At(), sample) == Read(old(At()))
    {
      hide IsPass;
      if blockOffset >= BLOCK_SAMPLES {
        var processed := graph.Process();
        currentBlock := processed;
        blockOffset := 0;
      }
      sample := currentBlock[blockOffset];
      blockOffset := blockOffset + 1;
    }

    /** One callback. The last frame may be cut short; it takes a sample all the same. */
    method WriteOutput(output: array<Single>, channels: nat)
      requires Valid() && channels > 0
      modifies this`currentBlock, this`blockOffset, graph, output
      ensures Valid() && At() == After(old(At()), FrameCount(output.Length, channels))
      ensures output.Length <= |Frames(Samples(old(At()), FrameCount(output.Length, channels)), channels, narrow)|
      ensures output[..]
                == Frames(Samples(old(At()), FrameCount(output.Length, channels)), channels, narrow)[..output.Length]
      ensures forall i :: 0 <= i < output.Length ==>
                i / channels < FrameCount(output.Length, channels)
                && output[i] == narrow(Samples(old(At()), FrameCount(output.Length, channels))[i / channels])
    {
      hide Read, After, Samples, Frames;
      ghost var start, f := At(), 0;
      var at := 0;
      FramesStart(start, channels, narrow);
      while at < output.Length
        invariant Valid() && At() == After(start, f) && at <= output.Length
        invariant at <= |Frames(Samples(start, f), channels, narrow)|
        invariant at < output.Length ==> at == |Frames(Samples(start, f), channels, narrow)|
        invariant output[..at] == Frames(Samples(start, f), channels, narrow)[..at]
        invariant f + FrameCount(output.Length - at, channels) == FrameCount(output.Length, channels)
        decreases output.Length - at
      {
        NextFrame(start, f, channels, narrow);
        ghost var before := output[..at];
        var sample := NextSample();
        var single := narrow(sample);
        var width := if channels <= output.Length - at then channels else output.Length - at;
        for c := 0 to width
          invariant output[..at] == before
          invariant forall d :: at <= d < at + c ==> output[d] == single
          invariant Valid() && At() == After(start, f + 1)
        {
          output[at + c] := single;
        }
        assert output[at..at + width] == seq(channels, _ => single)[..width];
        assert output[..at + width] == output[..at] + output[at..at + width];
        at := at + width;
        f := f + 1;
      }
      assert output[..at] == output[..];
      EachFrame(Samples(start, f), channels, narrow, output[..]);
    }

    /**
     * Callbacks one after the other, each for whole frames, perhaps into the same array: what is put out, and the
     * state after, is that of one callback for all the frames.
     */
    method Play(outputs: seq<array<Single>>, channels: nat, ghost sizes: seq<nat>) returns (put: seq<Single>)
      requires Valid() && channels > 0 && |sizes| == |outputs|
      requires forall i :: 0 <= i < |outputs| ==> outputs[i].Length == sizes[i] * channels
      modifies this`currentBlock, this`blockOffset, graph, set i | 0 <= i < |outputs| :: outputs[i]
      ensures Valid() && put == Callbacks(old(At()), sizes, channels, narrow)
      ensures put == Frames(Samples(old(At()), Sum(sizes)), channels, narrow)
      ensures At() == After(old(At()), Sum(sizes))
    {
      hide *;
      ghost var start := At();
      put := [];
      PlayStarts(start, sizes, channels, narrow);
      for i := 0 to |outputs|
        invariant Valid() && Remaining(start, put, At(), sizes, i, channels, narrow)
      {
        ghost var c := At();
        WriteOutput(outputs[i], channels);
        WholeFrames(sizes[i], channels);
        put := put + outputs[i][..];
        PlayMore(start, put, c, sizes, i, channels, narrow, outputs[i][..]);
      }
      PlayEnds(start, put, At(), sizes, channels, narrow);
      SplitDoesNotMatter(start, sizes, channels, narrow);
    }
  }

  /** What was put out before callback `i`, and what is to follow from the present state, make up the whole. */
  ghost predicate Remaining(start: Cursor, put: seq<Single>, c: Cursor, sizes: seq<nat>, i: nat, channels: nat,
                            narrow: Sample -> Single) {
    && i <= |sizes|
    && put + Callbacks(c, sizes[i..], channels, narrow) == Callbacks(start, sizes, channels, narrow)
    && After(c, Sum(sizes[i..])) == After(start, Sum(sizes))
  }

  lemma PlayStarts(start: Cursor, sizes: seq<nat>, channels: nat, narrow: Sample -> Single)
    ensures Remaining(start, [], start, sizes, 0, channels, narrow)
  {
    var all := Callbacks(start, sizes, channels, narrow);
    assert sizes[0..] == sizes && [] + all == all;
  }

  lemma PlayMore(start: Cursor, put: seq<Single>, c: Cursor, sizes: seq<nat>, i: nat, channels: nat,
                 narrow: Sample -> Single, out: seq<Single>)
    requires i < |sizes| && |out| <= |put|
    requires Remaining(start, put[..|put| - |out|], c, sizes, i, channels, narrow) && put[|put| - |out|..] == out
    requires |out| == sizes[i] * channels
    requires out == Frames(Samples(c, sizes[i]), channels, narrow)[..sizes[i] * channels]
    ensures Remaining(start, put, After(c, sizes[i]), sizes, i + 1, channels, narrow)
  {
    hide After, Samples, Frames;
    assert sizes[i..][0] == sizes[i] && sizes[i..][1..] == sizes[i + 1..];
    ReadOn(c, sizes[i], Sum(sizes[i + 1..]));
    var before, rest := put[..|put| - |out|], Callbacks(After(c, sizes[i]), sizes[i + 1..], channels, narrow);
    assert |Frames(Samples(c, sizes[i]), channels, narrow)| == sizes[i] * channels;
    assert put == before + out && before + (out + rest) == put + rest;
  }

  lemma PlayEnds(start: Cursor, put: seq<Single>, c: Cursor, sizes: seq<nat>, channels: nat, narrow: Sample -> Single)
    requires Remaining(start, put, c, sizes, |sizes|, channels, narrow)
    ensures put == Callbacks(start, sizes, channels, narrow) && c == After(start, Sum(sizes))
  {
    assert sizes[|sizes|..] == [] && put + [] == put;
  }

  /** A buffer of whole frames takes that many frames. */
  lemma {:induction false} WholeFrames(n: nat, channels: nat)
    requires channels > 0
    ensures FrameCount(n * channels, channels) == n
  {
    if n > 0 {
      assert n * channels == (n - 1) * channels + channels;
      WholeFrames(n - 1, channels);
      assert n == 1 || (n - 1) * channels >= channels;
    }
  }

  /** The frames in `length` samples, the last one perhaps cut short. */
  function FrameCount(length: nat, channels: nat): nat
    requires channels > 0
  {
    if length == 0 then 0 else if length <= channels then 1 else 1 + FrameCount(length - channels, channels)
  }

  lemma FramesStart(c: Cursor, channels: nat, narrow: Sample -> Single)
    ensures After(c, 0) == c && Frames(Samples(c, 0), channels, narrow) == []
  {
  }

  lemma NextFrame(c: Cursor, f: nat, channels: nat, narrow: Sample -> Single)
    ensures var (next, sample) := Read(After(c, f));
            && After(c, f + 1) == next
            && Frames(Samples(c, f + 1), channels, narrow)
                 == Frames(Samples(c, f), channels, narrow) + seq(channels, _ => narrow(sample))
  {
    hide Read;
    var s := Samples(c, f + 1);
    assert s[..f] == Samples(c, f);
  }
}
