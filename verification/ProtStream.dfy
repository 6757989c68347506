/** An input protection stream: the bytes the peer will send, and how far we have read. */
module ProtStream {

  const EOF: int := -1

  class Input {
    const data: string
    var pos: nat

    constructor (data: string)
      ensures this.data == data && pos == 0
    {
      this.data, pos := data, 0;
    }

    predicate Valid()
      reads this
    {
      pos <= |data|
    }

    /** What has not been read yet. */
    function Rest(): string
      requires Valid()
      reads this
    {
      data[pos..]
    }

    /** prot_getc */
    method Getc() returns (c: int)
      requires Valid()
      modifies this
      ensures Valid()
      ensures if old(pos) < |data| then pos == old(pos) + 1 && c == data[old(pos)] as int else pos == old(pos) && c == EOF
      ensures if old(Rest()) == "" then Rest() == "" && c == EOF
              else Rest() == old(Rest())[1..] && c == old(Rest())[0] as int
    {
      if pos < |data| {
        c := data[pos] as int;
        pos := pos + 1;
      } else {
        c := EOF;
      }
    }

    /** prot_ungetc of the character just read */
    method Ungetc(c: int)
      requires Valid() && pos > 0 && data[pos - 1] as int == c
      modifies this
      ensures Valid() && pos == old(pos) - 1
    {
      pos := pos - 1;
    }

    /** prot_fgets: up to `size` - 1 characters, no further than the end of the line. */
    method Fgets(size: nat) returns (buf: string)
      requires Valid() && size >= 2
      modifies this
      ensures Valid() && pos == old(pos) + |buf| && buf == data[old(pos)..pos]
      ensures buf <= old(Rest()) && Rest() == old(Rest())[|buf|..]
      ensures |buf| <= size - 1 && (old(pos) < |data| ==> buf != "")
      ensures forall i :: 0 <= i < |buf| - 1 ==> buf[i] != '\n'
      ensures |buf| == size - 1 || pos == |data| || buf[|buf| - 1] == '\n'
    {
      buf := "";
      var left := size - 1;
      while left > 0 && pos < |data|
        invariant Valid() && pos == old(pos) + |buf| && buf == data[old(pos)..pos]
        invariant left + |buf| == size - 1
        invariant forall i :: 0 <= i < |buf| ==> buf[i] != '\n'
      {
        buf := buf + [data[pos]];
        pos := pos + 1;
        left := left - 1;
        if buf[|buf| - 1] == '\n' {
          return;
        }
      }
    }

    /** prot_read: whatever is buffered, up to `size` characters; nothing only at the end of the stream. */
    method Read(size: nat) returns (buf: string)
      requires Valid() && size > 0
      modifies this
      ensures Valid() && pos == old(pos) + |buf| && buf == data[old(pos)..pos]
      ensures buf <= old(Rest()) && Rest() == old(Rest())[|buf|..]
      ensures |buf| <= size && (old(pos) < |data| ==> buf != "")
    {
      if pos == |data| {
        return "";
      }
      var n :| 0 < n <= size && pos + n <= |data|;
      buf := data[pos..pos + n];
      pos := pos + n;
    }
  }
}
