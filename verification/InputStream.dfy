/** Buffered input from a seekable file. */
module InputStream {
  import opened Options

  class Stream {
    const file: string
    var offset: nat
    var buffer: array<char>
    var used: nat
    var inputp: nat
    var eof: bool

    ghost predicate Valid()
      reads this, buffer
    {
      buffer.Length > 0 && inputp <= used <= buffer.Length && used <= offset <= |file|
    }

    /** The number of characters logically consumed. */
    ghost function Position(): (p: int)
      requires Valid()
      reads this, buffer
      ensures 0 <= p <= |file|
    {
      offset - (used - inputp)
    }

    /** What the following gets will deliver: the rest of the buffer, then the rest of the file. */
    ghost function Pending(): string
      requires Valid()
      reads this, buffer
    {
      buffer[inputp..used] + file[offset..]
    }

    /** Nothing but characters just read has been pushed back: the whole buffer is a stretch of
        the file, and what is pending is the file from the logical position on. */
    ghost predicate Clean()
      requires Valid()
      reads this, buffer
    {
      buffer[..used] == file[offset - used..offset]
    }

    lemma CleanPending()
      requires Valid() && Clean()
      ensures Pending() == file[Position()..]
      ensures inputp > 0 ==> Position() > 0 && buffer[inputp - 1] == file[Position() - 1]
    {
      var p, w := Position(), file[offset - used..offset];
      assert buffer[inputp..used] == buffer[..used][inputp..] == w[inputp..] == file[p..offset];
      if inputp > 0 {
        assert buffer[inputp - 1] == buffer[..used][inputp - 1] == w[inputp - 1];
      }
    }

    constructor (file: string, size: nat)
      requires size > 0
      ensures Valid() && Clean() && Position() == 0 && this.file == file && fresh(buffer)
    {
      this.file, offset, used, inputp, eof := file, 0, 0, 0, false;
      buffer := new char[size];
    }

    /** read(2): any number of characters from one to what fits, none only at the end. */
    method Read() returns (nr: nat)
      requires offset <= |file|
      modifies buffer, this`offset
      ensures nr <= buffer.Length && offset == old(offset) + nr <= |file|
      ensures buffer.Length > 0 ==> (nr == 0 <==> old(offset) == |file|)
      ensures buffer[..nr] == file[old(offset)..offset]
    {
      var left := if |file| - offset < buffer.Length then |file| - offset else buffer.Length;
      nr :| nr <= left && (left > 0 ==> nr > 0);
      var b, o := buffer, offset;
      for i := 0 to nr
        invariant forall j :: 0 <= j < i ==> b[j] == file[o + j]
        modifies b
      {
        b[i] := file[o + i];
      }
      offset := offset + nr;
    }

    /** b_fill_buffer. */
    method Fill() returns (c: Option<char>)
      requires Valid() && inputp == used
      modifies this, buffer
      ensures Valid() && buffer == old(buffer) && Delivers(old(Pending()), old(Position()), c)
      ensures Clean()
    {
      var was := offset;
      var nr := Read();
      if nr == 0 {
        used, inputp, eof := 0, 0, true;
        buffer[0] := '\0';
        return None;
      }
      used := nr;
      inputp := 1;
      assert buffer[..nr][0] == file[was];
      assert buffer[1..nr] == buffer[..nr][1..] == file[was + 1..offset];
      assert file[was..] == [file[was]] + (file[was + 1..offset] + file[offset..]);
      return Some(buffer[0]);
    }

    /** The first pending character was delivered, and could be pushed back; or nothing was pending. */
    ghost predicate Delivers(pending: string, p: int, c: Option<char>)
      requires Valid()
      reads this, buffer
    {
      if pending == "" then c == None && Pending() == "" && Position() == p
      else c == Some(pending[0]) && Pending() == pending[1..] && Position() == p + 1
           && inputp > 0 && buffer[inputp - 1] == pending[0]
    }

    method Getc() returns (c: Option<char>)
      requires Valid()
      modifies this, buffer
      ensures Valid() && buffer == old(buffer) && Delivers(old(Pending()), old(Position()), c)
      ensures old(Clean()) ==> Clean()
    {
      if inputp == used || used == 0 {
        c := Fill();
      } else {
        assert buffer[inputp..used] == [buffer[inputp]] + buffer[inputp + 1..used];
        c := Some(buffer[inputp]);
        inputp := inputp + 1;
      }
    }

    /** Pushing a character back makes it the next one delivered; it is refused exactly when
        the input pointer is at the start of the buffer. */
    method Ungetc(c: char) returns (ok: bool)
      requires Valid()
      modifies this`inputp, buffer
      ensures Valid() && ok == (old(inputp) > 0)
      ensures if ok then Pending() == [c] + old(Pending()) && Position() == old(Position()) - 1
              else Pending() == old(Pending()) && Position() == old(Position())
      ensures old(Clean()) && (ok ==> old(buffer[inputp - 1]) == c) ==> Clean()
    {
      if inputp == 0 {
        return false;
      }
      inputp := inputp - 1;
      buffer[inputp] := c;
      assert buffer[inputp..used] == [c] + old(buffer[inputp..used]);
      return true;
    }

    /** sync_buffered_stream: the file offset becomes the number of characters consumed, and
        what is pending is what the file holds from there on. */
    method Sync()
      requires Valid()
      modifies this
      ensures Valid() && Clean() && buffer == old(buffer) && inputp == 0
      ensures offset == Position() == old(Position()) && Pending() == file[offset..]
    {
      offset := offset - (used - inputp);
      used, inputp := 0, 0;
    }
  }

  // ----- runs -----

  /** GetUnget reads a character and, unless it met the end, pushes it back. */
  datatype Op = Get | GetUnget | Synchronise

  /** Unbuffered reading: what the gets of a run deliver from position p on. */
  function Plain(file: string, p: nat, ops: seq<Op>): seq<Option<char>>
    decreases |ops|
  {
    if ops == [] then []
    else if ops[0] == Synchronise then Plain(file, p, ops[1..])
    else
      var c := if p < |file| then Some(file[p]) else None;
      [c] + Plain(file, if ops[0] == Get && p < |file| then p + 1 else p, ops[1..])
  }

  /** The position after a run. */
  function After(file: string, p: nat, ops: seq<Op>): nat
    decreases |ops|
  {
    if ops == [] then p else After(file, if ops[0] == Get && p < |file| then p + 1 else p, ops[1..])
  }

  method Step(s: Stream, op: Op) returns (out: seq<Option<char>>)
    requires s.Valid() && s.Clean()
    modifies s, s.buffer
    ensures s.Valid() && s.Clean() && s.buffer == old(s.buffer)
    ensures out == Plain(s.file, old(s.Position()), [op]) && s.Position() == After(s.file, old(s.Position()), [op])
    ensures op == Synchronise ==> s.offset == s.Position()
  {
    s.CleanPending();
    if op == Synchronise {
      s.Sync();
      return [];
    }
    var c := s.Getc();
    out := [c];
    if op == GetUnget && c.Some? {
      var ok := s.Ungetc(c.value);
      assert ok;
    }
  }

  lemma RunStep(file: string, p: nat, ops: seq<Op>)
    ensures ops == [] ==> Plain(file, p, ops) == [] && After(file, p, ops) == p
    ensures ops != [] ==>
      var q := After(file, p, [ops[0]]);
      Plain(file, p, ops) == Plain(file, p, [ops[0]]) + Plain(file, q, ops[1..]) && After(file, p, ops) == After(file, q, ops[1..])
  {
    if ops != [] {
      assert [ops[0]][1..] == [];
    }
  }

  /** Every run of gets, pushbacks of the character just read and syncs, with reads of any
      size, delivers what unbuffered reading does, and no pushback is refused. */
  method SameCharacters(s: Stream, ops: seq<Op>) returns (out: seq<Option<char>>)
    requires s.Valid() && s.Clean()
    modifies s, s.buffer
    ensures s.Valid() && s.Clean() && s.buffer == old(s.buffer)
    ensures out == Plain(s.file, old(s.Position()), ops) && s.Position() == After(s.file, old(s.Position()), ops)
    decreases |ops|
  {
    hide Plain, After, Stream.Clean, Stream.Position;
    RunStep(s.file, s.Position(), ops);
    if ops == [] {
      return [];
    }
    out := Step(s, ops[0]);
    var more := SameCharacters(s, ops[1..]);
    out := out + more;
  }

  /** Once the buffer has been given up by a sync, the character before is refused. */
  method GetSyncUnget(s: Stream) returns (ok: bool)
    requires s.Valid() && s.Clean() && s.Position() < |s.file|
    modifies s, s.buffer
    ensures s.Valid() && !ok && s.Position() == old(s.Position()) + 1
  {
    s.CleanPending();
    var c := s.Getc();
    s.Sync();
    ok := s.Ungetc(c.value);
  }
}
