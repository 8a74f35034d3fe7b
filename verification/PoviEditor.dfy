/** povi's Editor: cursor and buffer, refining the lines-and-cursor view and so the flat string. */
module PoviEditor {
  import opened FlatText
  import opened PoviBuffer

  class Editor {
    const buffer: Buffer
    var row: int
    var col: int

    ghost function Abs(): Ed
      reads this, buffer
    {
      Ed(buffer.view, row, col)
    }

    ghost predicate Valid()
      reads this, buffer, buffer.repr
    {
      this !in buffer.repr && buffer.Valid() && InRange(Abs())
    }

    constructor ()
      ensures Valid() && Abs() == Ed([""], 0, 0) && fresh(buffer.repr)
    {
      buffer := new Buffer();
      row := 0;
      col := 0;
    }

    /** move_left. */
    method MoveLeft()
      requires Valid()
      modifies this
      ensures Valid() && Abs() == Left(old(Abs()))
    {
      hide InRange;
      InBounds(Abs());
      MovesFlat(Abs());
      buffer.ViewLength();
      if col > 0 {
        col := col - 1;
      } else if row > 0 {
        row := row - 1;
        col := buffer.LineLength(row);
      }
    }

    /** move_right. */
    method MoveRight()
      requires Valid()
      modifies this
      ensures Valid() && Abs() == Right(old(Abs()))
    {
      hide InRange;
      InBounds(Abs());
      MovesFlat(Abs());
      buffer.ViewLength();
      var n := buffer.LineLength(row);
      if col < n {
        col := col + 1;
      } else if row + 1 < buffer.lines.count {
        row := row + 1;
        col := 0;
      }
    }

    /** move_up. */
    method MoveUp()
      requires Valid()
      modifies this
      ensures Valid() && Abs() == Vertical(old(Abs()), old(row) - 1)
    {
      hide InRange;
      InBounds(Abs());
      VerticalInRange(Abs(), row - 1);
      buffer.ViewLength();
      if row > 0 {
        row := row - 1;
        var n := buffer.LineLength(row);
        if col > n {
          col := n;
        }
      }
    }

    /** move_down. */
    method MoveDown()
      requires Valid()
      modifies this
      ensures Valid() && Abs() == Vertical(old(Abs()), old(row) + 1)
    {
      hide InRange;
      InBounds(Abs());
      VerticalInRange(Abs(), row + 1);
      buffer.ViewLength();
      if row + 1 < buffer.lines.count {
        row := row + 1;
        var n := buffer.LineLength(row);
        if col > n {
          col := n;
        }
      }
    }

    /** insert_char. */
    method InsertChar(c: char)
      requires Valid()
      modifies this, buffer.repr
      ensures Valid() && fresh(buffer.repr - old(buffer.repr)) && Abs() == Insert(old(Abs()), c)
    {
      hide InRange, InsertIn;
      InsertFlat(Abs(), c);
      buffer.InsertChar(row, col, c);
      if c == '\n' {
        row := row + 1;
        col := 0;
      } else {
        col := col + 1;
      }
    }

    /** backspace. */
    method EraseBack()
      requires Valid()
      modifies this, buffer.repr
      ensures Valid() && fresh(buffer.repr - old(buffer.repr)) && Abs() == Backspace(old(Abs()))
    {
      hide InRange, DeleteIn, Flat, Offset, Del;
      InBounds(Abs());
      BackspaceFlat(Abs());
      buffer.ViewLength();
      if col > 0 {
        buffer.DeleteChar(row, col - 1);
        col := col - 1;
      } else if row > 0 {
        JoinPrevious();
      }
    }

    /** The branch of backspace for a newline. */
    method JoinPrevious()
      requires Valid() && col == 0 && row > 0
      modifies this, buffer.repr
      ensures Valid() && fresh(buffer.repr - old(buffer.repr)) && Abs() == Backspace(old(Abs()))
    {
      hide InRange, DeleteIn, Flat, Offset, Del;
      InBounds(Abs());
      BackspaceFlat(Abs());
      buffer.ViewLength();
      var n := buffer.LineLength(row - 1);
      buffer.DeleteChar(row - 1, n);
      row := row - 1;
      col := n;
    }

    /** delete_char. */
    method EraseHere()
      requires Valid()
      modifies this, buffer.repr
      ensures Valid() && fresh(buffer.repr - old(buffer.repr)) && Abs() == Delete(old(Abs()))
    {
      hide InRange, DeleteIn, Flat, Offset, Del;
      InBounds(Abs());
      DeleteFlat(Abs());
      DeleteKeepsRow(buffer.view, row, col);
      buffer.DeleteChar(row, col);
      buffer.ViewLength();
      var n := buffer.LineLength(row);
      if col > n {
        col := n;
      }
    }

    /** One keystroke. */
    method Press(k: Key)
      requires Valid()
      modifies this, buffer.repr
      ensures Valid() && fresh(buffer.repr - old(buffer.repr)) && InRange(old(Abs())) && Abs() == Edit(old(Abs()), k)
    {
      hide Insert, Backspace, Delete, Left, Right, Vertical;
      match k {
        case Type(c) => InsertChar(c);
        case Back => EraseBack();
        case Erase => EraseHere();
        case GoLeft => MoveLeft();
        case GoRight => MoveRight();
        case GoUp => MoveUp();
        case GoDown => MoveDown();
      }
    }

    /** Any keystrokes: the text and the offset are those of the flat editor. */
    method PressAll(keys: seq<Key>)
      requires Valid()
      modifies this, buffer.repr
      ensures Valid() && FlatOf(Abs()) == FlatRun(FlatOf(old(Abs())), keys)
    {
      hide Edit, FlatEdit, FlatOf, InRange;
      ghost var was := FlatOf(Abs());
      assert keys[..0] == [] && keys[..|keys|] == keys;
      for i := 0 to |keys|
        invariant Valid() && fresh(buffer.repr - old(buffer.repr)) && FlatOf(Abs()) == FlatRun(was, keys[..i])
      {
        EditFlat(Abs(), keys[i]);
        FlatRunSnoc(was, keys[..i], keys[i]);
        assert keys[..i + 1] == keys[..i] + [keys[i]];
        Press(keys[i]);
      }
    }

    /** Typing a key and then backspace: the text and the cursor come back. */
    method TypeAndErase(c: char)
      requires Valid()
      modifies this, buffer.repr
      ensures Valid() && Abs() == old(Abs())
    {
      hide InRange, Insert, Backspace;
      BackspaceUndoesInsert(Abs(), c);
      InsertChar(c);
      EraseBack();
    }
  }

  lemma {:induction false} InBounds(e: Ed)
    requires InRange(e)
    ensures 0 <= e.row < |e.lines| && 0 <= e.col <= |e.lines[e.row]|
  {
  }

  lemma {:induction false} DeleteKeepsRow(ls: seq<string>, row: nat, i: nat)
    requires row < |ls| && i <= |ls[row]|
    ensures row < |DeleteIn(ls, row, i)|
  {
  }
}
