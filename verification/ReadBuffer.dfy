/** A buffer of fixed size with a cursor, shared by the request printer and the sessions. */
module ReadBuffer {
  import opened Bytes

  class ReadBufferAdapter {
    const data: array<Byte>
    var cursor: nat

    ghost predicate Valid()
      reads this
    {
      cursor <= data.Length
    }

    /** A new buffer of `size` bytes. */
    constructor (size: nat)
      ensures Valid() && data.Length == size && cursor == 0 && fresh(data)
    {
      data := new Byte[size];
      cursor := 0;
    }

    /** A cursor of its own into bytes that others share. */
    constructor Shared(buffer: array<Byte>)
      ensures Valid() && data == buffer && cursor == 0
    {
      data := buffer;
      cursor := 0;
    }

    predicate IsFinish()
      reads this
    {
      cursor == data.Length
    }

    /** The cursor never passes the end. */
    method IncreaseCursor(diff: nat)
      requires Valid()
      modifies `cursor
      ensures Valid() && cursor == if old(cursor) + diff <= data.Length then old(cursor) + diff else data.Length
    {
      if cursor + diff <= data.Length {
        cursor := cursor + diff;
      } else {
        cursor := data.Length;
      }
    }

    method ResetCursor()
      modifies `cursor
      ensures Valid() && cursor == 0
    {
      cursor := 0;
    }

    /** Copies a text to the cursor and moves the cursor past it. */
    method Put(text: Text)
      requires Valid() && cursor + |text| <= data.Length
      modifies data, `cursor
      ensures Valid() && cursor == old(cursor) + |text|
      ensures data[..cursor] == old(data[..cursor]) + text
    {
      ghost var start := cursor;
      for i := 0 to |text|
        invariant cursor == start && data[..start] == old(data[..cursor])
        invariant data[start..start + i] == text[..i]
      {
        data[cursor + i] := text[i];
        assert text[..i + 1] == text[..i] + [text[i]];
      }
      assert text[..|text|] == text;
      IncreaseCursor(|text|);
      assert data[..cursor] == data[..start] + data[start..cursor];
    }

    /**
     * Prints a text at the cursor, as `sprintf` does: behind it goes a terminator, which the next text overwrites.
     * `inside` tells whether the terminator, too, lies in the buffer; outside of it nothing is modelled.
     */
    method Print(text: Text) returns (inside: bool)
      requires Valid() && cursor + |text| <= data.Length
      modifies data, `cursor
      ensures Valid() && cursor == old(cursor) + |text|
      ensures data[..cursor] == old(data[..cursor]) + text
      ensures inside <==> cursor < data.Length
      ensures inside ==> data[cursor] == NUL
    {
      Put(text);
      inside := cursor < data.Length;
      if inside {
        data[cursor] := NUL;
      }
    }
  }
}
