/** BZ2_bzCompress: the modes and states of a compression stream. */
module Compressor {
  import opened Archive
  import opened Bits
  import opened Crc
  import Parser
  import opened Rotations
  import opened RunBuffer
  import opened RunLength

  datatype Mode = Idle | Running | Flushing | Finishing
  datatype Action = BzRun | BzFlush | BzFinish | BzOther
  datatype Code = RunOk | FlushOk | FinishOk | StreamEnd | SequenceError | ParamError

  /** Calls that the documentation's table of states and actions allows, when the input is as announced or not. */
  predicate Allowed(mode: Mode, action: Action, announced: bool) {
    match mode
    case Idle => false
    case Running => action != BzOther
    case Flushing => action == BzFlush && announced
    case Finishing => action == BzFinish && announced
  }

  /** That table: the mode before, the action, the mode after and the code. */
  predicate Follows(mode: Mode, action: Action, announced: bool, next: Mode, code: Code) {
    if !Allowed(mode, action, announced) then next == mode && code == if mode == Running then ParamError else SequenceError
    else
      match action
      case BzRun => next == Running && (code == RunOk || code == ParamError)
      case BzFlush => (next == Running && code == RunOk) || (next == Flushing && code == FlushOk)
      case _ => (next == Idle && code == StreamEnd) || (next == Finishing && (code == FinishOk || code == SequenceError))
  }

  class Compressor {
    const size: Parser.level
    const arch: Archive
    const buf: RunBuffer
    var mode: Mode
    /** BZ_S_OUTPUT rather than BZ_S_INPUT. */
    var output: bool
    var pos: nat
    var expected: nat
    /** The caller's buffers: input not yet consumed, room for output, and the output written to it. */
    var input: seq<byte>
    var room: nat
    var out: seq<byte>
    /** All bytes consumed, and whether the block in output was closed by a flush. */
    ghost var fed: seq<byte>
    ghost var flushed: bool
    /** What had been handed out before the current call, and the room it has been given. */
    ghost var base: seq<byte>
    ghost var limit: nat

    /** All bytes handed out. */
    ghost function Sent(): seq<byte>
      reads this`base, this`out
    {
      base + out
    }

    function BlockMax(): int {
      100000 * size - 19
    }

    /** Consumed bytes are in closed blocks, the open block or the pending run, and nowhere else. */
    ghost predicate Conserved()
      reads this`fed, this`output, arch, arch.w, buf
    {
      match output
      case true => Parts() && fed == arch.text + buf.Pending()
      case false => Parts() && fed == arch.text + buf.Text()
    }

    /** The archive's invariant, to be opened by a proof that mentions BytesToBits(arch.before). */
    ghost predicate Filed()
      reads arch, arch.w
    {
      forall b {:trigger BytesToBits(b)} :: b == arch.before ==> arch.Valid()
    }

    ghost predicate Parts()
      reads arch, arch.w, buf
    {
      Filed() && buf.Valid() && arch.t == buf.t && arch.size == size
    }

    /** Bytes handed out are those of the earlier blocks and the first pos of this one. */
    ghost predicate Taking()
      reads this`pos, this`base, this`out, arch, arch.w
    {
      pos <= |arch.w.zbits| && Sent() == arch.before + arch.w.zbits[..pos]
    }

    ghost predicate Handed()
      reads this`out, this`room, this`limit
    {
      |out| + room == limit
    }

    /** While a block is being handed out: closed by a flush with nothing pending, or full, less 19 bytes, with a pending run. */
    ghost predicate OutputOk()
      reads this`mode, this`expected, this`flushed, arch, buf
    {
      && arch.stage != Fresh
      && if flushed then buf.Empty() && expected == 0 && mode != Running && (arch.stage.Closed? <==> mode == Finishing || mode == Idle)
         else !buf.Empty() && arch.stage == Open && mode != Idle && |buf.stored| >= 100000 * size - 19
    }

    ghost predicate InputOk()
      reads this`mode, this`pos, arch, arch.w, buf
    {
      Fillable() && |buf.stored| < BlockMax() && (buf.Empty() ==> buf.runs == [])
    }

    ghost predicate Valid()
      reads this`fed, this`output, this`pos, this`base, this`out, this`mode, this`expected, this`flushed, arch, arch.w, buf
    {
      match mode
      case Idle => Conserved() && Taking() && output && OutputOk() && pos == |arch.w.zbits|
      case _ => Conserved() && Taking() && if output then OutputOk() else InputOk()
    }

    /** BZ2_bzCompressInit. */
    constructor (size: Parser.level, t: Checksum, workFactor: int)
      requires 0 <= workFactor <= 250
      ensures Valid() && Poised() && mode == Running && !output && fed == [] && Sent() == [] && fresh(arch) && fresh(arch.w) && fresh(buf)
      ensures this.size == size && arch.t == t
    {
      this.size := size;
      arch := new Archive(size, t, if workFactor == 0 then 30 else workFactor);
      buf := new RunBuffer(t);
      mode, output, pos, expected := Running, false, 0, 0;
      input, room, out := [], 0, [];
      fed, flushed, base, limit := [], false, [], 0;
      new;
      assert arch.w.zbits[..0] == [];
    }

    /** copy_output_until_stop. */
    method CopyOutput() returns (progress: bool)
      requires Taking() && Handed()
      modifies this`pos, this`room, this`out
      ensures Taking() && Handed() && (pos == |arch.w.zbits| || room == 0)
      ensures pos >= old(pos) && (progress <==> pos > old(pos)) && (!progress ==> room == old(room))
    {
      progress := false;
      ghost var z := arch.w.zbits;
      while room > 0 && pos < |arch.w.zbits|
        invariant Taking() && Handed() && old(pos) <= pos && (progress <==> pos > old(pos)) && (!progress ==> room == old(room))
        decreases |z| - pos
      {
        progress := true;
        Onward(arch.before, z, pos, base, out);
        out := out + [arch.w.zbits[pos]];
        pos := pos + 1;
        room := room - 1;
      }
    }

    method TakeChar()
      requires Conserved() && !output && input != [] && (buf.Empty() ==> buf.runs == [])
      modifies this`fed, this`input, buf
      ensures Conserved() && !buf.Empty() && fed + input == old(fed + input) && input == old(input)[1..]
      ensures |old(buf.stored)| <= |buf.stored| <= |old(buf.stored)| + 5
    {
      Consume(fed, input, arch.text, buf.Text());
      buf.AddChar(input[0]);
      fed := fed + [input[0]];
      input := input[1..];
    }

    /** copy_input_until_stop. */
    method CopyInput() returns (progress: bool)
      requires Conserved() && InputOk() && !output && (mode != Running ==> expected <= |input|)
      modifies this`fed, this`input, this`expected, buf
      ensures Conserved() && fed + input == old(fed + input) && |input| <= |old(input)| && (progress <==> |input| < |old(input)|)
      ensures |buf.stored| < BlockMax() + 5 && (buf.Empty() ==> buf.runs == []) && (|buf.stored| >= BlockMax() ==> !buf.Empty() && progress)
      ensures |buf.stored| >= BlockMax() || input == [] || (mode != Running && expected == 0)
      ensures mode != Running ==> |old(input)| - |input| == old(expected) - expected
      ensures mode == Running ==> expected == old(expected)
    {
      progress := false;
      while |buf.stored| < BlockMax() && input != [] && (mode == Running || expected != 0)
        invariant Conserved() && fed + input == old(fed + input) && |input| <= |old(input)| && (progress <==> |input| < |old(input)|)
        invariant |buf.stored| < BlockMax() + 5 && (buf.Empty() ==> buf.runs == []) && (|buf.stored| >= BlockMax() ==> !buf.Empty() && progress)
        invariant mode != Running ==> |old(input)| - |input| == old(expected) - expected
        invariant mode == Running ==> expected == old(expected)
        decreases |input|
      {
        progress := true;
        TakeChar();
        if mode != Running { expected := expected - 1; }
      }
    }

    /** The part of InputOk that the caller's bytes do not change. */
    ghost predicate Fillable()
      reads this`mode, this`pos, arch, arch.w
    {
      mode != Idle && !arch.stage.Closed? && (arch.stage.Fresh? <==> arch.blockNo == 1) && arch.w.zbits == [] && pos == 0
    }

    /** BZ2_compressBlock and the change to output state; the pending run is not part of the block. */
    method CloseBlock(last: bool)
      requires Conserved() && Taking() && Fillable() && !output && |buf.stored| <= 100000 * size - 10
      modifies this`output, arch, arch.w
      ensures Conserved() && Taking() && output && (if last then arch.stage.Closed? && arch.w.zbits != [] else arch.stage == Open)
      ensures |buf.stored| + |arch.w.zbits| <= 4 * (100000 * size + 34)
    {
      Regrouped(arch.text, ExpandedAll(buf.runs), buf.Pending());
      Pack(last);
      output := true;
    }

    method Pack(last: bool)
      requires Parts() && Taking() && Fillable() && |buf.stored| <= 100000 * size - 10
      modifies arch, arch.w
      ensures Filed() && Taking() && (if last then arch.stage.Closed? && arch.w.zbits != [] else arch.stage == Open)
      ensures arch.text == old(arch.text) + ExpandedAll(buf.runs)
      ensures |buf.stored| + |arch.w.zbits| <= 4 * (100000 * size + 34)
    {
      ghost var earlier := BytesToBits(arch.before);
      assert Runs(buf.runs);
      arch.CompressBlock(buf.stored, buf.inUse, buf.crc, last, buf.runs);
      assert arch.w.zbits[..0] == [];
    }

    method NextArchive()
      requires Filed() && Taking() && arch.stage == Open && pos == |arch.w.zbits|
      modifies this`pos, arch, arch.w
      ensures Filed() && Taking() && arch.stage == Open && arch.blockNo > 1 && arch.w.zbits == [] && pos == 0 && arch.text == old(arch.text)
    {
      ghost var earlier := BytesToBits(arch.before);
      assert arch.w.zbits[..pos] == arch.w.zbits;
      arch.NextBlock();
      pos := 0;
      assert arch.before + [] == arch.before;
    }

    method CloseFull()
      requires Conserved() && Taking() && Fillable() && !output && !buf.Empty() && BlockMax() <= |buf.stored| < BlockMax() + 5
      modifies this`output, this`flushed, arch, arch.w
      ensures Conserved() && Taking() && OutputOk() && output && !flushed
    {
      CloseBlock(false);
      flushed := false;
    }

    /** flush_RL, then the block that ends a flush or the stream. */
    method CloseFlushed()
      requires Conserved() && Taking() && Fillable() && !output && mode != Running && expected == 0 && |buf.stored| < BlockMax() + 5
      modifies this`output, this`flushed, arch, arch.w, buf
      ensures Conserved() && Taking() && OutputOk() && output && flushed && (mode == Finishing ==> pos < |arch.w.zbits|)
    {
      buf.Flush();
      CloseBlock(mode == Finishing);
      flushed := true;
    }

    /** prepare_new_block, once all output of the last one is taken. */
    method PrepareBlock()
      requires Conserved() && Taking() && OutputOk() && output && arch.stage == Open && pos == |arch.w.zbits|
      modifies this`output, this`pos, arch, arch.w, buf
      ensures Conserved() && Taking() && InputOk() && !output && buf.Empty() == old(buf.Empty()) && arch.stage == Open
    {
      NextArchive();
      buf.NewBlock();
      output := false;
    }

    /** In a flush or at the end, exactly the input announced is still to come. */
    ghost predicate InStep()
      reads this`mode, this`expected, this`input
    {
      mode != Running ==> expected == |input|
    }

    /** Why handle_compress may return: output is full, a flush or the stream is complete, or input has run out. */
    ghost predicate Rested()
      reads this`mode, this`output, this`pos, this`room, this`flushed, this`expected, this`input, arch, arch.w, buf
    {
      match mode
      case Running => if output then room == 0 && pos < |arch.w.zbits| else input == []
      case Flushing => if output then room == 0 && pos < |arch.w.zbits| else expected == 0 && buf.Empty() && arch.stage == Open
      case Finishing => output && if pos < |arch.w.zbits| then room == 0 else flushed
      case Idle => false
    }

    method HandOut() returns (progress: bool)
      requires Valid() && output && mode != Idle && Handed()
      modifies this`pos, this`room, this`out
      ensures Valid() && Handed() && (pos == |arch.w.zbits| || room == 0)
      ensures pos >= old(pos) && (progress <==> pos > old(pos)) && (!progress ==> room == old(room))
    {
      progress := CopyOutput();
    }

    /** What follows the copying of output: stop, or make ready for the next block. */
    method AfterOutput() returns (stop: bool)
      requires Valid() && output && mode != Idle && (pos == |arch.w.zbits| || room == 0)
      modifies this`pos, this`output, arch, arch.w, buf
      ensures Valid()
      ensures !stop ==> !output && !flushed
      ensures stop ==> Rested()
      ensures stop && output ==> pos == old(pos) && arch.w.zbits == old(arch.w.zbits)
      ensures old(pos < |arch.w.zbits|) ==> stop && output
    {
      stop := true;
      if pos < |arch.w.zbits| { return; }
      if mode == Finishing && expected == 0 && buf.Empty() { return; }
      assert flushed ==> mode == Flushing && expected == 0 && buf.Empty();
      PrepareBlock();
      stop := mode == Flushing && expected == 0 && buf.Empty();
    }

    /** The output half of one round of handle_compress. */
    method OutputStep() returns (stop: bool, progress: bool)
      requires Valid() && output && mode != Idle && Handed()
      modifies this`pos, this`room, this`out, this`output, arch, arch.w, buf
      ensures Valid() && Handed() && (!progress ==> room == old(room))
      ensures !stop ==> !output && !flushed
      ensures stop ==> Rested()
      ensures stop && output ==> arch.w.zbits == old(arch.w.zbits) && pos >= old(pos) && (progress ==> pos > old(pos))
      ensures !progress && old(pos < |arch.w.zbits|) ==> stop && output && pos == old(pos)
    {
      progress := HandOut();
      stop := AfterOutput();
    }

    /** The input half. */
    method InputStep() returns (stop: bool, progress: bool)
      requires Valid() && !output && InStep()
      modifies this`fed, this`input, this`expected, this`output, this`flushed, arch, arch.w, buf
      ensures Valid() && InStep() && fed + input == old(fed + input) && |input| <= |old(input)| && (!progress ==> |input| == |old(input)|)
      ensures stop ==> Rested() && !output
      ensures !stop ==> output && (flushed || |input| < |old(input)|)
      ensures !progress && output && mode != Flushing ==> pos < |arch.w.zbits|
    {
      progress := CopyInput();
      stop := false;
      if mode != Running && expected == 0 {
        CloseFlushed();
      } else if |buf.stored| >= BlockMax() {
        CloseFull();
      } else {
        stop := true;
      }
    }

    function Measure(inputLeft: nat, output: bool, flushed: bool): nat {
      3 * inputLeft + if !output then 2 else if flushed then 1 else 3
    }

    /** One round of handle_compress. */
    method Round() returns (stop: bool, progress: bool)
      requires Valid() && InStep() && mode != Idle && Handed()
      modifies this`pos, this`room, this`out, this`fed, this`input, this`expected, this`output, this`flushed, arch, arch.w, buf
      ensures Valid() && InStep() && fed + input == old(fed + input) && |input| <= |old(input)| && Handed()
      ensures if stop then Rested() else Measure(|input|, output, flushed) < old(Measure(|input|, output, flushed))
      ensures !progress ==> room == old(room) && |input| == |old(input)|
      ensures !progress && output && mode != Flushing && old(output ==> pos < |arch.w.zbits|) ==> pos < |arch.w.zbits|
      ensures stop && output ==> old(output) && Measure(|input|, output, flushed) == old(Measure(|input|, output, flushed))
      ensures stop && output ==> arch.w.zbits == old(arch.w.zbits) && pos >= old(pos) && (progress ==> pos > old(pos))
    {
      stop, progress := false, false;
      if output {
        stop, progress := OutputStep();
        if stop { return; }
      }
      var more;
      stop, more := InputStep();
      progress := progress || more;
    }

    /** Bytes of the current block that have not been handed out. */
    ghost function Left(): int
      reads this`pos, arch.w
    {
      |arch.w.zbits| - pos
    }

    /** Between calls there is something to hand out whenever the state is output. */
    ghost predicate Poised()
      reads this`output, this`mode, this`pos, arch.w
    {
      output && mode != Idle ==> pos < |arch.w.zbits|
    }

    /** handle_compress. Without progress nothing was consumed or handed out, and the next byte is still there. */
    method HandleCompress() returns (progress: bool)
      requires Valid() && InStep() && mode != Idle && Handed() && Poised()
      modifies this`pos, this`room, this`out, this`fed, this`input, this`expected, this`output, this`flushed, arch, arch.w, buf
      ensures Valid() && InStep() && Rested() && fed + input == old(fed + input) && |input| <= |old(input)| && Handed()
      ensures !progress ==> room == old(room) && |input| == |old(input)|
      ensures !progress && output && mode != Flushing ==> pos < |arch.w.zbits|
      ensures progress && output ==> Closer(old(Measure(|input|, output, flushed)), old(Left()), Measure(|input|, output, flushed), Left())
    {
      progress := false;
      var stop := false;
      ghost var m, z := Measure(|input|, output, flushed), Left();
      while !stop
        invariant Valid() && InStep() && Handed() && fed + input == old(fed + input) && |input| <= |old(input)|
        invariant stop ==> Rested()
        invariant !progress ==> room == old(room) && |input| == |old(input)|
        invariant !progress && output && mode != Flushing ==> pos < |arch.w.zbits|
        invariant Measure(|input|, output, flushed) < m || (!stop && !progress && Measure(|input|, output, flushed) == m && Left() == z)
               || (stop && (output && progress ==> Closer(m, z, Measure(|input|, output, flushed), Left())))
        decreases !stop, Measure(|input|, output, flushed)
      {
        var more;
        stop, more := Round();
        progress := progress || more;
      }
    }

    /** No input is lost or invented, and the call's outputs are still counted from b. */
    ghost predicate Kept(b: seq<byte>, n: nat, all: seq<byte>, most: nat)
      reads this`base, this`limit, this`fed, this`input
    {
      base == b && limit == n && fed + input == all && |input| <= most
    }

    /** A call returns without having done all it was asked to only when the output is full. */
    ghost predicate Pressed(code: Code)
      reads this`room, this`input
    {
      match code
      case RunOk => room == 0 || input == []
      case FlushOk => room == 0
      case FinishOk => room == 0
      case StreamEnd => input == []
      case _ => true
    }

    method Resume()
      requires Valid() && mode == Flushing && !output
      modifies this`mode
      ensures Valid() && mode == Running
    {
      mode := Running;
    }

    method GoIdle()
      requires Valid() && mode == Finishing && output && flushed && pos == |arch.w.zbits|
      modifies this`mode
      ensures Valid() && mode == Idle
    {
      mode := Idle;
    }

    /** All that has been taken is in blocks that are complete, and all their bytes have been handed out. */
    ghost predicate Flushed()
      reads this`mode, this`output, this`pos, this`fed, this`input, arch, arch.w, buf
    {
      mode == Running && !output && input == [] && buf.Empty() && fed == arch.text && arch.stage == Open && arch.w.zbits == [] && pos == 0
    }

    lemma AllFiled()
      requires Valid() && mode == Running && !output && input == [] && buf.Empty() && arch.stage == Open
      ensures Flushed()
    {
      assert buf.Text() == [];
      assert arch.text + [] == arch.text;
    }

    /** The rest of a flush, once the mode is set. */
    method Flush() returns (code: Code)
      requires Valid() && InStep() && Handed() && mode == Flushing && Poised()
      modifies this, arch, arch.w, buf
      ensures Valid() && Handed() && Poised() && Kept(old(base), old(limit), old(fed + input), |old(input)|) && Pressed(code)
      ensures if code == RunOk then Flushed() else code == FlushOk && mode == Flushing && InStep()
      ensures code == FlushOk && old(room) > 0 ==> Closer(old(Measure(|input|, output, flushed)), old(Left()), Measure(|input|, output, flushed), Left())
    {
      var progress := HandleCompress();
      if expected > 0 || !buf.Empty() || pos < |arch.w.zbits| {
        code := FlushOk;
      } else {
        Resume();
        AllFiled();
        code := RunOk;
      }
    }

    /** The rest of the stream, once the mode is set; an error only if there was no room at all. */
    method Finish() returns (code: Code)
      requires Valid() && InStep() && Handed() && mode == Finishing && Poised()
      modifies this, arch, arch.w, buf
      ensures Valid() && Handed() && Poised() && Kept(old(base), old(limit), old(fed + input), |old(input)|) && Pressed(code)
      ensures if code == StreamEnd then mode == Idle else mode == Finishing && InStep() && (code == FinishOk || code == SequenceError)
      ensures code == SequenceError ==> old(room) == 0 && room == 0 && |input| == |old(input)|
      ensures code == FinishOk ==> Closer(old(Measure(|input|, output, flushed)), old(Left()), Measure(|input|, output, flushed), Left())
    {
      var progress := HandleCompress();
      if !progress {
        code := SequenceError;
      } else if expected > 0 || !buf.Empty() || pos < |arch.w.zbits| {
        code := FinishOk;
      } else {
        GoIdle();
        code := StreamEnd;
      }
    }

    /** An error only if there was neither input nor anything to hand out, or no room. */
    method Run() returns (code: Code)
      requires Valid() && Handed() && mode == Running && Poised()
      modifies this, arch, arch.w, buf
      ensures Valid() && Handed() && Poised() && Kept(old(base), old(limit), old(fed + input), |old(input)|) && Pressed(code)
      ensures mode == Running && (code == RunOk || code == ParamError) && (code == ParamError ==> old(room) == 0 || old(input) == [])
      ensures code == ParamError ==> room == old(room) && |input| == |old(input)|
    {
      var progress := HandleCompress();
      code := if progress then RunOk else ParamError;
    }

    /** A flush or the end begins: the input to be taken is fixed. */
    method Announce(m: Mode)
      requires Valid() && Handed() && mode == Running && Poised() && (m == Flushing || m == Finishing)
      modifies this`mode, this`expected
      ensures Valid() && Handed() && InStep() && mode == m && Poised()
    {
      expected, mode := |input|, m;
    }

    /** What a flushing call has brought about: the end of the flush, or all room used and less left to do. */
    ghost predicate FlushedOn(code: Code, m: nat, left: int)
      reads this`mode, this`expected, this`input, this`output, this`flushed, this`pos, this`fed, arch, arch.w, buf
    {
      match code
      case RunOk => Flushed()
      case FlushOk => mode == Flushing && InStep() && Closer(m, left, Measure(|input|, output, flushed), Left())
      case _ => false
    }

    /** What a finishing call has brought about: the end, or all room used and less left to do. */
    ghost predicate Finished(code: Code, m: nat, left: int)
      reads this`mode, this`expected, this`input, this`output, this`flushed, this`pos, arch.w
    {
      match code
      case StreamEnd => mode == Idle
      case FinishOk => mode == Finishing && InStep() && Closer(m, left, Measure(|input|, output, flushed), Left())
      case _ => false
    }

    /** A call that reports an error has taken and handed out nothing. */
    ghost predicate Untouched(code: Code, r: nat, n: nat)
      reads this`room, this`input
    {
      code == ParamError || code == SequenceError ==> room == r && |input| == n
    }

    method ActRunning(action: Action) returns (code: Code)
      requires Valid() && Handed() && mode == Running && Poised()
      modifies this, arch, arch.w, buf
      ensures Valid() && Handed() && Poised() && Kept(old(base), old(limit), old(fed + input), |old(input)|) && Pressed(code)
      ensures Follows(Running, action, true, mode, code) && Untouched(code, old(room), |old(input)|)
      ensures action == BzRun && old(room) > 0 && old(input) != [] ==> code == RunOk
      ensures action == BzFinish && old(room) > 0 ==> Finished(code, old(Measure(|input|, output, flushed)), old(Left()))
      ensures action == BzFlush && old(room) > 0 ==> FlushedOn(code, old(Measure(|input|, output, flushed)), old(Left()))
      ensures action == BzFlush && code == RunOk ==> Flushed()
    {
      match action
      case BzRun => code := Run();
      case BzFlush =>
        Announce(Flushing);
        code := Flush();
      case BzFinish =>
        Announce(Finishing);
        code := Finish();
      case BzOther => code := ParamError;
    }

    method Act(action: Action) returns (code: Code)
      requires Valid() && Handed() && Poised()
      modifies this, arch, arch.w, buf
      ensures Valid() && Handed() && Poised() && Kept(old(base), old(limit), old(fed + input), |old(input)|) && Pressed(code)
      ensures Follows(old(mode), action, old(expected == |input|), mode, code) && Untouched(code, old(room), |old(input)|)
      ensures old(mode) == Running && action == BzRun && old(room) > 0 && old(input) != [] ==> code == RunOk
      ensures action == BzFinish && old(room) > 0 && old(mode == Running || (mode == Finishing && expected == |input|))
          ==> Finished(code, old(Measure(|input|, output, flushed)), old(Left()))
      ensures action == BzFlush && old(room) > 0 && old(mode == Running || (mode == Flushing && expected == |input|))
          ==> FlushedOn(code, old(Measure(|input|, output, flushed)), old(Left()))
      ensures action == BzFlush && code == RunOk ==> Flushed()
    {
      code := SequenceError;
      if mode == Running {
        code := ActRunning(action);
      } else if mode == Flushing && action == BzFlush && expected == |input| {
        code := Flush();
      } else if mode == Finishing && action == BzFinish && expected == |input| {
        code := Finish();
      }
    }

    method Begin(avail: seq<byte>, space: nat)
      modifies this`input, this`room, this`out, this`base, this`limit
      ensures Handed() && input == avail && out == [] && base == old(Sent()) && limit == room == space
    {
      input, room, out, base, limit := avail, space, [], base + out, space;
      assert base + [] == base;
    }

    method Respond(action: Action, avail: seq<byte>, space: nat) returns (code: Code)
      requires Valid() && Poised()
      modifies this, arch, arch.w, buf
      ensures Valid() && Handed() && Poised() && Kept(old(Sent()), space, old(fed) + avail, |avail|) && Pressed(code)
      ensures Follows(old(mode), action, old(expected) == |avail|, mode, code) && Untouched(code, space, |avail|)
      ensures old(mode) == Running && action == BzRun && space > 0 && avail != [] ==> code == RunOk
      ensures action == BzFinish && space > 0 && old(mode == Running || (mode == Finishing && expected == |avail|))
          ==> Finished(code, old(Measure(|avail|, output, flushed)), old(Left()))
      ensures action == BzFlush && space > 0 && old(mode == Running || (mode == Flushing && expected == |avail|))
          ==> FlushedOn(code, old(Measure(|avail|, output, flushed)), old(Left()))
      ensures action == BzFlush && code == RunOk ==> Flushed()
    {
      Begin(avail, space);
      code := Act(action);
    }

    /**
     * BZ2_bzCompress with the input window avail and space bytes of room. A call leaves input or a flush
     * unfinished only when it has used all its room. With room and input a run never fails, with room a finish
     * or a flush that goes on as announced never fails. A flush that is over has handed out all that was taken. Modes
     * and codes follow the documented table, and a call that reports an error does nothing.
     */
    method Compress(action: Action, avail: seq<byte>, space: nat) returns (taken: nat, written: seq<byte>, code: Code)
      requires Valid() && Poised()
      modifies this, arch, arch.w, buf
      ensures Valid() && Poised() && taken <= |avail| && fed == old(fed) + avail[..taken] && Sent() == old(Sent()) + written
      ensures |written| <= space && (code == FlushOk || code == FinishOk ==> |written| == space)
      ensures code == RunOk ==> |written| == space || taken == |avail|
      ensures code == StreamEnd ==> taken == |avail|
      ensures Follows(old(mode), action, old(expected) == |avail|, mode, code)
      ensures code == ParamError || code == SequenceError ==> taken == 0 && written == []
      ensures old(mode) == Running && action == BzRun && space > 0 && avail != [] ==> code == RunOk
      ensures action == BzFinish && space > 0 && old(mode == Running || (mode == Finishing && expected == |avail|))
          ==> Finished(code, old(Measure(|avail|, output, flushed)), old(Left())) && |input| == |avail| - taken
      ensures action == BzFlush && space > 0 && old(mode == Running || (mode == Flushing && expected == |avail|))
          ==> FlushedOn(code, old(Measure(|avail|, output, flushed)), old(Left())) && |input| == |avail| - taken
      ensures action == BzFlush && code == RunOk ==> Flushed()
    {
      code := Respond(action, avail, space);
      written := out;
      Took(old(fed), avail, fed, input);
      taken := |avail| - |input|;
    }
  }

  /** Fewer things left to do, or as many and fewer bytes of the current block to hand out. */
  predicate Closer(m: nat, left: int, m': nat, left': int) {
    m' < m || (m' == m && left' < left)
  }

  lemma Took(f: seq<byte>, avail: seq<byte>, fed: seq<byte>, input: seq<byte>)
    requires fed + input == f + avail && |input| <= |avail|
    ensures fed == f + avail[..|avail| - |input|]
  {
    assert fed == (fed + input)[..|fed|];
  }

  lemma Onward(before: seq<byte>, z: seq<byte>, pos: nat, base: seq<byte>, out: seq<byte>)
    requires pos < |z| && before + z[..pos] == base + out
    ensures before + z[..pos] + [z[pos]] == before + z[..pos + 1] && base + out + [z[pos]] == base + (out + [z[pos]])
  {
  }

  lemma Consume(fed: seq<byte>, input: seq<byte>, parts: seq<byte>, text: seq<byte>)
    requires input != [] && fed == parts + text
    ensures fed + [input[0]] == parts + (text + [input[0]]) && fed + [input[0]] + input[1..] == fed + input
  {
  }
}
