/** The povi editor's text as lines with a cursor, and as one flat string with an offset. */
module FlatText {

  /** The lines and the cursor. */
  datatype Ed = Ed(lines: seq<string>, row: int, col: int)

  function Clamp(i: int, n: nat): (r: nat)
    ensures r <= n
  {
    if i < 0 then 0 else if i > n then n else i
  }

  /** The clamped index lies between the index and every place in range: it is the nearest one. */
  lemma {:induction false} ClampNearest(i: int, n: nat, k: nat)
    requires k <= n
    ensures i <= Clamp(i, n) <= k || k <= Clamp(i, n) <= i
  {
  }

  // ------------------------------------------------------------------ strings

  function Ins(s: string, i: nat, c: char): string
    requires i <= |s|
  {
    s[..i] + [c] + s[i..]
  }

  function Del(s: string, i: nat): string
    requires i < |s|
  {
    s[..i] + s[i + 1..]
  }

  // ------------------------------------------------------------------ lines

  ghost predicate LinesOk(ls: seq<string>) {
    |ls| >= 1 && forall l <- ls :: '\n' !in l
  }

  /** The cursor is on a line, at one of its characters or at its end. */
  ghost predicate InRange(e: Ed) {
    LinesOk(e.lines) && 0 <= e.row < |e.lines| && 0 <= e.col <= |e.lines[e.row]|
  }

  /** Buffer::insert_char. */
  function InsertIn(ls: seq<string>, row: int, col: int, c: char): seq<string> {
    if !(0 <= row < |ls|) then ls
    else
      var i := Clamp(col, |ls[row]|);
      if c == '\n' then ls[..row] + [ls[row][..i], ls[row][i..]] + ls[row + 1..] else ls[row := Ins(ls[row], i, c)]
  }

  /** Buffer::delete_char. */
  function DeleteIn(ls: seq<string>, row: int, col: int): seq<string> {
    if !(0 <= row < |ls|) then ls
    else if col < |ls[row]| then if col < 0 then ls else ls[row := Del(ls[row], col)]
    else if row + 1 < |ls| then ls[..row] + [ls[row] + ls[row + 1]] + ls[row + 2..]
    else ls
  }

  // ------------------------------------------------------------------ the editor's operations

  function Insert(e: Ed, c: char): Ed {
    var ls := InsertIn(e.lines, e.row, e.col, c);
    if c == '\n' then Ed(ls, e.row + 1, 0) else Ed(ls, e.row, e.col + 1)
  }

  function Backspace(e: Ed): Ed
    requires 0 <= e.row < |e.lines|
  {
    if e.col > 0 then Ed(DeleteIn(e.lines, e.row, e.col - 1), e.row, e.col - 1)
    else if e.row > 0 then
      var n := |e.lines[e.row - 1]|;
      Ed(DeleteIn(e.lines, e.row - 1, n), e.row - 1, n)
    else e
  }

  function Delete(e: Ed): Ed
    requires 0 <= e.row < |e.lines|
  {
    var ls := DeleteIn(e.lines, e.row, e.col);
    Ed(ls, e.row, if e.col > |ls[e.row]| then |ls[e.row]| else e.col)
  }

  function Left(e: Ed): Ed
    requires 0 <= e.row < |e.lines|
  {
    if e.col > 0 then e.(col := e.col - 1)
    else if e.row > 0 then e.(row := e.row - 1, col := |e.lines[e.row - 1]|)
    else e
  }

  function Right(e: Ed): Ed
    requires 0 <= e.row < |e.lines|
  {
    if e.col < |e.lines[e.row]| then e.(col := e.col + 1)
    else if e.row + 1 < |e.lines| then e.(row := e.row + 1, col := 0)
    else e
  }

  function Vertical(e: Ed, row: int): Ed {
    if 0 <= row < |e.lines| then Ed(e.lines, row, if e.col > |e.lines[row]| then |e.lines[row]| else e.col) else e
  }

  // ------------------------------------------------------------------ the flat view

  /** Lines, each followed by a newline. */
  function Pre(ls: seq<string>): string {
    if ls == [] then "" else ls[0] + "\n" + Pre(ls[1..])
  }

  /** Lines, each after a newline. */
  function Post(ls: seq<string>): string {
    if ls == [] then "" else "\n" + ls[0] + Post(ls[1..])
  }

  /** The text of the buffer. */
  function Flat(ls: seq<string>): string
    requires |ls| >= 1
  {
    ls[0] + Post(ls[1..])
  }

  /** The cursor's place in it. */
  function Offset(e: Ed): int
    requires 0 <= e.row < |e.lines|
  {
    |Pre(e.lines[..e.row])| + e.col
  }

  /** The text around one line. */
  lemma {:induction false} FlatAt(ls: seq<string>, row: nat)
    requires row < |ls|
    ensures Flat(ls) == Pre(ls[..row]) + ls[row] + Post(ls[row + 1..])
  {
    if row > 0 {
      FlatAt(ls[1..], row - 1);
      assert ls[1..][..row - 1] == ls[..row][1..];
      assert ls[1..][row..] == ls[row + 1..];
      assert Pre(ls[..row]) == ls[0] + "\n" + Pre(ls[..row][1..]);
      var a, b, c := Pre(ls[..row][1..]), ls[row], Post(ls[row + 1..]);
      assert Flat(ls[1..]) == a + b + c;
      assert Flat(ls) == ls[0] + "\n" + Flat(ls[1..]);
      assert ls[0] + "\n" + (a + b + c) == (ls[0] + "\n" + a) + b + c;
    }
  }

  /** One more line before the cursor. */
  lemma {:induction false} PreSnoc(ls: seq<string>, l: string)
    ensures Pre(ls + [l]) == Pre(ls) + l + "\n"
  {
    if ls == [] {
      assert (ls + [l])[1..] == [];
    } else {
      PreSnoc(ls[1..], l);
      assert (ls + [l])[1..] == ls[1..] + [l];
    }
  }

  /** The offset is inside the text, and at a line's end it is at a newline or at the end of the text. */
  lemma {:induction false} OffsetIn(e: Ed)
    requires 0 <= e.row < |e.lines| && 0 <= e.col <= |e.lines[e.row]|
    ensures 0 <= Offset(e) <= |Flat(e.lines)|
    ensures Offset(e) == 0 <==> e.row == 0 && e.col == 0
    ensures Offset(e) == |Flat(e.lines)| <==> e.row == |e.lines| - 1 && e.col == |e.lines[e.row]|
  {
    FlatAt(e.lines, e.row);
  }

  /** Replacing one line. */
  lemma {:induction false} FlatWith(ls: seq<string>, row: nat, l: string)
    requires row < |ls|
    ensures Flat(ls[row := l]) == Pre(ls[..row]) + l + Post(ls[row + 1..])
  {
    var ls' := ls[row := l];
    FlatAt(ls', row);
    assert ls'[..row] == ls[..row] && ls'[row + 1..] == ls[row + 1..];
  }

  lemma {:induction false} InsBetween(a: string, s: string, b: string, i: nat, c: char)
    requires i <= |s|
    ensures Ins(a + s + b, |a| + i, c) == a + Ins(s, i, c) + b
  {
    assert (a + s + b)[..|a| + i] == a + s[..i];
    assert (a + s + b)[|a| + i..] == s[i..] + b;
  }

  lemma {:induction false} DelBetween(a: string, s: string, b: string, i: nat)
    requires i < |s|
    ensures Del(a + s + b, |a| + i) == a + Del(s, i) + b
  {
    assert (a + s + b)[..|a| + i] == a + s[..i];
    assert (a + s + b)[|a| + i + 1..] == s[i + 1..] + b;
  }

  // ------------------------------------------------------------------ refinement

  lemma {:induction false} InsertLines(ls: seq<string>, row: nat, i: nat, c: char)
    requires LinesOk(ls) && row < |ls| && i <= |ls[row]|
    ensures LinesOk(InsertIn(ls, row, i, c)) && |InsertIn(ls, row, i, c)| == |ls| + if c == '\n' then 1 else 0
    ensures c != '\n' ==> |InsertIn(ls, row, i, c)[row]| == |ls[row]| + 1
  {
    assert ls[row] in ls;
    forall l <- InsertIn(ls, row, i, c) ensures '\n' !in l {
      assert l in ls || l == ls[row][..i] || l == ls[row][i..] || (c != '\n' && l == Ins(ls[row], i, c));
    }
  }

  lemma {:induction false} DeleteLines(ls: seq<string>, row: nat, i: nat)
    requires LinesOk(ls) && row < |ls| && i <= |ls[row]|
    ensures LinesOk(DeleteIn(ls, row, i)) && row < |DeleteIn(ls, row, i)|
    ensures |DeleteIn(ls, row, i)[row]| >= i
  {
    assert ls[row] in ls;
    assert row + 1 < |ls| ==> ls[row + 1] in ls;
    forall l <- DeleteIn(ls, row, i) ensures '\n' !in l {
      assert l in ls || (i < |ls[row]| && l == Del(ls[row], i)) || (row + 1 < |ls| && l == ls[row] + ls[row + 1]);
    }
  }

  /** Splitting a line puts a newline into the text. */
  lemma {:induction false} SplitFlat(ls: seq<string>, row: nat, i: nat)
    requires row < |ls| && i <= |ls[row]|
    ensures var ls' := ls[..row] + [ls[row][..i], ls[row][i..]] + ls[row + 1..];
            Flat(ls') == Pre(ls[..row]) + Ins(ls[row], i, '\n') + Post(ls[row + 1..])
                && Pre(ls'[..row + 1]) == Pre(ls[..row]) + ls[row][..i] + "\n"
  {
    var a, x, y, b := ls[..row], ls[row][..i], ls[row][i..], ls[row + 1..];
    var ls' := a + [x, y] + b;
    FlatAt(ls', row);
    assert ls'[..row] == a && ls'[row] == x && ls'[row + 1..] == [y] + b;
    assert ([y] + b)[1..] == b;
    assert ls'[..row + 1] == a + [x];
    PreSnoc(a, x);
    assert Ins(ls[row], i, '\n') == x + "\n" + y;
    assert Pre(a) + x + ("\n" + y + Post(b)) == Pre(a) + (x + "\n" + y) + Post(b);
  }

  /** Typing a character inserts it at the offset, and moves past it. */
  lemma {:induction false} InsertFlat(e: Ed, c: char)
    requires InRange(e)
    ensures InRange(Insert(e, c))
    ensures 0 <= Offset(e) <= |Flat(e.lines)| && Flat(Insert(e, c).lines) == Ins(Flat(e.lines), Offset(e), c)
    ensures Offset(Insert(e, c)) == Offset(e) + 1
  {
    hide LinesOk;
    var ls, row := e.lines, e.row;
    InsertLines(ls, row, e.col, c);
    FlatAt(ls, row);
    InsBetween(Pre(ls[..row]), ls[row], Post(ls[row + 1..]), e.col, c);
    if c == '\n' {
      SplitFlat(ls, row, e.col);
    } else {
      FlatWith(ls, row, Ins(ls[row], e.col, c));
      assert ls[row := Ins(ls[row], e.col, c)][..row] == ls[..row];
    }
  }

  /** Joining two lines takes the newline between them out of the text. */
  lemma {:induction false} JoinFlat(ls: seq<string>, row: nat)
    requires row + 1 < |ls|
    ensures var ls' := ls[..row] + [ls[row] + ls[row + 1]] + ls[row + 2..];
            var at := |Pre(ls[..row])| + |ls[row]|;
            ls'[..row] == ls[..row] && at < |Flat(ls)| && Flat(ls') == Del(Flat(ls), at) && |Pre(ls[..row + 1])| == at + 1
  {
    var a, x, y, b := ls[..row], ls[row], ls[row + 1], ls[row + 2..];
    var ls' := a + [x + y] + b;
    FlatAt(ls, row);
    FlatAt(ls', row);
    assert ls'[..row] == a && ls'[row + 1..] == b;
    assert ls[row + 1..] == [y] + b && ([y] + b)[1..] == b;
    var m := x + "\n" + y;
    assert Pre(a) + x + ("\n" + y + Post(b)) == Pre(a) + m + Post(b);
    DelBetween(Pre(a), m, Post(b), |x|);
    assert Del(m, |x|) == x + y;
    assert ls[..row + 1] == a + [x];
    PreSnoc(a, x);
  }

  /** Deleting inside a line. */
  lemma {:induction false} EraseFlat(ls: seq<string>, row: nat, i: nat)
    requires row < |ls| && i < |ls[row]|
    ensures var ls' := ls[row := Del(ls[row], i)];
            var at := |Pre(ls[..row])| + i;
            ls'[..row] == ls[..row] && at < |Flat(ls)| && Flat(ls') == Del(Flat(ls), at)
  {
    FlatAt(ls, row);
    FlatWith(ls, row, Del(ls[row], i));
    DelBetween(Pre(ls[..row]), ls[row], Post(ls[row + 1..]), i);
    assert ls[row := Del(ls[row], i)][..row] == ls[..row];
  }

  /** Backspace deletes the character before the offset, if there is one. */
  lemma {:induction false} BackspaceFlat(e: Ed)
    requires InRange(e)
    ensures InRange(Backspace(e))
    ensures 0 <= Offset(e) <= |Flat(e.lines)|
    ensures if Offset(e) == 0 then Backspace(e) == e
            else Flat(Backspace(e).lines) == Del(Flat(e.lines), Offset(e) - 1) && Offset(Backspace(e)) == Offset(e) - 1
  {
    hide LinesOk, Flat, Pre, Del;
    OffsetIn(e);
    if e.col > 0 {
      DeleteLines(e.lines, e.row, e.col - 1);
      EraseFlat(e.lines, e.row, e.col - 1);
    } else if e.row > 0 {
      DeleteLines(e.lines, e.row - 1, |e.lines[e.row - 1]|);
      JoinFlat(e.lines, e.row - 1);
    }
  }

  /** Delete removes the character at the offset, if there is one. */
  lemma {:induction false} DeleteFlat(e: Ed)
    requires InRange(e)
    ensures InRange(Delete(e))
    ensures 0 <= Offset(e) <= |Flat(e.lines)| && Offset(Delete(e)) == Offset(e)
    ensures Flat(Delete(e).lines) == if Offset(e) == |Flat(e.lines)| then Flat(e.lines) else Del(Flat(e.lines), Offset(e))
  {
    hide LinesOk, Flat, Pre, Del;
    OffsetIn(e);
    DeleteLines(e.lines, e.row, e.col);
    if e.col < |e.lines[e.row]| {
      EraseFlat(e.lines, e.row, e.col);
    } else if e.row + 1 < |e.lines| {
      JoinFlat(e.lines, e.row);
    }
  }

  /** Left and right move the offset by one and stop at the ends. */
  lemma {:induction false} MovesFlat(e: Ed)
    requires InRange(e)
    ensures InRange(Left(e)) && InRange(Right(e)) && Left(e).lines == Right(e).lines == e.lines
    ensures Offset(Left(e)) == if Offset(e) == 0 then 0 else Offset(e) - 1
    ensures Offset(Right(e)) == if Offset(e) == |Flat(e.lines)| then Offset(e) else Offset(e) + 1
  {
    OffsetIn(e);
    if e.col == 0 && e.row > 0 {
      PreSnoc(e.lines[..e.row - 1], e.lines[e.row - 1]);
      assert e.lines[..e.row] == e.lines[..e.row - 1] + [e.lines[e.row - 1]];
    }
    if e.col == |e.lines[e.row]| && e.row + 1 < |e.lines| {
      PreSnoc(e.lines[..e.row], e.lines[e.row]);
      assert e.lines[..e.row + 1] == e.lines[..e.row] + [e.lines[e.row]];
    }
  }

  /** Up and down keep the cursor in range. */
  lemma {:induction false} VerticalInRange(e: Ed, row: int)
    requires InRange(e)
    ensures InRange(Vertical(e, row)) && Vertical(e, row).lines == e.lines
    ensures 0 <= row < |e.lines| ==> Vertical(e, row).row == row
  {
  }

  // ------------------------------------------------------------------ lines of the flat text

  /** Where the line that offset at is on begins: after the last newline before it. */
  function LineStart(t: string, at: nat): (s: nat)
    requires at <= |t|
    ensures s <= at
  {
    if at == 0 || t[at - 1] == '\n' then at else LineStart(t, at - 1)
  }

  /** Where it ends: at the next newline, or at the end of the text. */
  function LineEnd(t: string, at: nat): (n: nat)
    requires at <= |t|
    ensures at <= n <= |t|
    decreases |t| - at
  {
    if at == |t| || t[at] == '\n' then at else LineEnd(t, at + 1)
  }

  function Least(a: int, b: int): int { if a < b then a else b }

  /** The same column on the line before, or that line's end. */
  function FlatUp(t: string, at: nat): (n: nat)
    requires at <= |t|
    ensures n <= |t|
  {
    var s := LineStart(t, at);
    if s == 0 then at else Least(LineStart(t, s - 1) + (at - s), s - 1)
  }

  /** The same column on the line after, or that line's end. */
  function FlatDown(t: string, at: nat): (n: nat)
    requires at <= |t|
    ensures n <= |t|
  {
    var s, n := LineStart(t, at), LineEnd(t, at);
    if n == |t| then at else Least(n + 1 + (at - s), LineEnd(t, n + 1))
  }

  lemma {:induction false} StartIs(t: string, s: nat, at: nat)
    requires s <= at <= |t| && (s == 0 || t[s - 1] == '\n') && forall k :: s <= k < at ==> t[k] != '\n'
    ensures LineStart(t, at) == s
  {
    if s < at { StartIs(t, s, at - 1); }
  }

  lemma {:induction false} EndIs(t: string, at: nat, n: nat)
    requires at <= n <= |t| && (n == |t| || t[n] == '\n') && forall k :: at <= k < n ==> t[k] != '\n'
    ensures LineEnd(t, at) == n
    decreases n - at
  {
    if at < n { EndIs(t, at + 1, n); }
  }

  /** The place of a line in the text. */
  lemma {:induction false} LineAt(ls: seq<string>, row: nat)
    requires LinesOk(ls) && row < |ls|
    ensures var t, s, n := Flat(ls), |Pre(ls[..row])|, |Pre(ls[..row])| + |ls[row]|;
            && n <= |t| && (forall k :: s <= k < n ==> t[k] != '\n')
            && (row == 0 <==> s == 0) && (row > 0 ==> t[s - 1] == '\n')
            && (if row + 1 < |ls| then n < |t| && t[n] == '\n' && |Pre(ls[..row + 1])| == n + 1 else n == |t|)
  {
    FlatAt(ls, row);
    var t, a, b, c := Flat(ls), Pre(ls[..row]), ls[row], Post(ls[row + 1..]);
    assert b in ls;
    assert forall k :: |a| <= k < |a| + |b| ==> t[k] == b[k - |a|] && b[k - |a|] in b;
    if row > 0 {
      PreSnoc(ls[..row - 1], ls[row - 1]);
      assert ls[..row] == ls[..row - 1] + [ls[row - 1]];
    }
    if row + 1 < |ls| {
      assert c[0] == '\n' && t[|a| + |b|] == c[0];
      PreSnoc(ls[..row], ls[row]);
      assert ls[..row + 1] == ls[..row] + [ls[row]];
    } else {
      assert ls[row + 1..] == [];
    }
  }

  /** The line the cursor is on, found in the text. */
  lemma {:induction false} CursorLine(e: Ed)
    requires InRange(e)
    ensures var t, s := Flat(e.lines), |Pre(e.lines[..e.row])|;
            && 0 <= Offset(e) <= |t| && LineStart(t, Offset(e)) == s && LineEnd(t, Offset(e)) == s + |e.lines[e.row]|
  {
    hide Flat, Pre, LinesOk, LineStart, LineEnd;
    LineAt(e.lines, e.row);
    var t, s := Flat(e.lines), |Pre(e.lines[..e.row])|;
    StartIs(t, s, Offset(e));
    EndIs(t, Offset(e), s + |e.lines[e.row]|);
  }

  /** Up and down go to the same column of the neighbouring line of the text, or to its end. */
  lemma {:induction false} VerticalFlat(e: Ed)
    requires InRange(e)
    ensures InRange(Vertical(e, e.row - 1)) && InRange(Vertical(e, e.row + 1)) && 0 <= Offset(e) <= |Flat(e.lines)|
    ensures Offset(Vertical(e, e.row - 1)) == FlatUp(Flat(e.lines), Offset(e))
    ensures Offset(Vertical(e, e.row + 1)) == FlatDown(Flat(e.lines), Offset(e))
  {
    hide Flat, Pre, LinesOk, LineStart, LineEnd;
    VerticalInRange(e, e.row - 1);
    VerticalInRange(e, e.row + 1);
    CursorLine(e);
    LineAt(e.lines, e.row);
    if e.row > 0 {
      var above := Ed(e.lines, e.row - 1, |e.lines[e.row - 1]|);
      CursorLine(above);
      LineAt(e.lines, e.row - 1);
    }
    if e.row + 1 < |e.lines| {
      CursorLine(Ed(e.lines, e.row + 1, 0));
    }
  }

  // ------------------------------------------------------------------ the view loses nothing

  /** Two buffers with the same text have the same lines. */
  lemma {:induction false} FlatInjective(a: seq<string>, b: seq<string>)
    requires LinesOk(a) && LinesOk(b) && Flat(a) == Flat(b)
    ensures a == b
  {
    FirstLine(a, b);
    FirstLine(b, a);
    assert a[0] == b[0];
    assert Post(a[1..]) == Flat(a)[|a[0]|..] && Post(b[1..]) == Flat(b)[|b[0]|..];
    if |a| > 1 || |b| > 1 {
      assert Post(a[1..]) == Post(b[1..]);
      assert |a| > 1 && |b| > 1;
      assert Flat(a[1..]) == Post(a[1..])[1..] && Flat(b[1..]) == Post(b[1..])[1..];
      FlatInjective(a[1..], b[1..]);
    }
    assert a == [a[0]] + a[1..] && b == [b[0]] + b[1..];
  }

  lemma {:induction false} FirstEnd(a: seq<string>)
    requires LinesOk(a)
    ensures |a[0]| < |Flat(a)| ==> Flat(a)[|a[0]|] == '\n'
  {
    assert Post(a[1..]) == Flat(a)[|a[0]|..];
  }

  lemma {:induction false} FirstInside(b: seq<string>, n: nat)
    requires LinesOk(b)
    ensures n < |b[0]| ==> n < |Flat(b)| && Flat(b)[n] != '\n'
  {
    if n < |b[0]| { assert b[0][n] in b[0] && b[0] in b; }
  }

  /** The first line ends at the text's first newline, so no other reading of the text has a shorter one. */
  lemma {:induction false} FirstLine(a: seq<string>, b: seq<string>)
    requires LinesOk(a) && LinesOk(b) && Flat(a) == Flat(b)
    ensures |a[0]| >= |b[0]| && b[0] <= a[0]
  {
    FirstEnd(a);
    FirstInside(b, |a[0]|);
    assert b[0] == Flat(b)[..|b[0]|];
    assert a[0] == Flat(a)[..|a[0]|];
  }

  /** Two cursors at the same offset are at the same place. */
  lemma {:induction false} OffsetInjective(e: Ed, e': Ed)
    requires InRange(e) && InRange(e') && e.lines == e'.lines && Offset(e) == Offset(e')
    ensures e == e'
  {
    if e.row < e'.row { RowBefore(e, e'); }
    if e'.row < e.row { RowBefore(e', e); }
  }

  lemma {:induction false} RowBefore(e: Ed, e': Ed)
    requires InRange(e) && InRange(e') && e.lines == e'.lines && e.row < e'.row
    ensures Offset(e) < Offset(e')
  {
    PreMonotone(e.lines, e.row + 1, e'.row);
    PreSnoc(e.lines[..e.row], e.lines[e.row]);
    assert e.lines[..e.row + 1] == e.lines[..e.row] + [e.lines[e.row]];
  }

  lemma {:induction false} PreMonotone(ls: seq<string>, m: nat, n: nat)
    requires m <= n <= |ls|
    ensures |Pre(ls[..m])| <= |Pre(ls[..n])|
  {
    if m < n {
      PreMonotone(ls, m, n - 1);
      PreSnoc(ls[..n - 1], ls[n - 1]);
      assert ls[..n] == ls[..n - 1] + [ls[n - 1]];
    }
  }

  lemma {:induction false} InsThenDel(s: string, i: nat, c: char)
    requires i <= |s|
    ensures |Ins(s, i, c)| == |s| + 1 && Del(Ins(s, i, c), i) == s
  {
  }

  /** Backspace undoes any insertion, newline included: the same lines and the same cursor. */
  lemma {:induction false} BackspaceUndoesInsert(e: Ed, c: char)
    requires InRange(e)
    ensures Insert(e, c).row < |Insert(e, c).lines| && Backspace(Insert(e, c)) == e
  {
    hide Insert, Backspace, Flat, Offset, Ins, Del, LinesOk;
    InsertFlat(e, c);
    var e1 := Insert(e, c);
    BackspaceFlat(e1);
    var e2 := Backspace(e1);
    InsThenDel(Flat(e.lines), Offset(e), c);
    FlatInjective(e2.lines, e.lines);
    OffsetInjective(e2, e);
  }

  /** So does delete after moving back. */
  lemma {:induction false} DeleteUndoesInsert(e: Ed, c: char)
    requires InRange(e)
    ensures InRange(Insert(e, c)) && InRange(Left(Insert(e, c))) && Delete(Left(Insert(e, c))) == e
  {
    hide Insert, Left, Right, Delete, Flat, Offset, Ins, Del, LinesOk;
    InsertFlat(e, c);
    var e1 := Insert(e, c);
    MovesFlat(e1);
    var e2 := Left(e1);
    DeleteFlat(e2);
    InsThenDel(Flat(e.lines), Offset(e), c);
    FlatInjective(Delete(e2).lines, e.lines);
    OffsetInjective(Delete(e2), e);
  }

  // ------------------------------------------------------------------ whole runs of keys

  datatype Key = Type(c: char) | Back | Erase | GoLeft | GoRight | GoUp | GoDown

  /** A flat editor: a string and an offset into it. */
  datatype FlatEd = FlatEd(text: string, at: int)

  function Edit(e: Ed, k: Key): Ed
    requires InRange(e)
  {
    match k
    case Type(c) => Insert(e, c)
    case Back => Backspace(e)
    case Erase => Delete(e)
    case GoLeft => Left(e)
    case GoRight => Right(e)
    case GoUp => Vertical(e, e.row - 1)
    case GoDown => Vertical(e, e.row + 1)
  }

  /** What a flat editor does with a key. */
  function FlatEdit(f: FlatEd, k: Key): FlatEd {
    if !(0 <= f.at <= |f.text|) then f
    else match k
      case Type(c) => FlatEd(Ins(f.text, f.at, c), f.at + 1)
      case Back => if f.at == 0 then f else FlatEd(Del(f.text, f.at - 1), f.at - 1)
      case Erase => if f.at == |f.text| then f else FlatEd(Del(f.text, f.at), f.at)
      case GoLeft => if f.at == 0 then f else FlatEd(f.text, f.at - 1)
      case GoRight => if f.at == |f.text| then f else FlatEd(f.text, f.at + 1)
      case GoUp => FlatEd(f.text, FlatUp(f.text, f.at))
      case GoDown => FlatEd(f.text, FlatDown(f.text, f.at))
  }

  function FlatRun(f: FlatEd, keys: seq<Key>): FlatEd
    decreases |keys|
  {
    if keys == [] then f else FlatRun(FlatEdit(f, keys[0]), keys[1..])
  }

  function FlatOf(e: Ed): FlatEd
    requires InRange(e)
  {
    FlatEd(Flat(e.lines), Offset(e))
  }

  /** One key does to the flat view what it does to the lines. */
  lemma {:induction false} EditFlat(e: Ed, k: Key)
    requires InRange(e)
    ensures InRange(Edit(e, k)) && FlatOf(Edit(e, k)) == FlatEdit(FlatOf(e), k)
  {
    hide Insert, Backspace, Delete, Left, Right, Vertical, Flat, Offset, LinesOk, FlatUp, FlatDown;
    OffsetIn(e);
    VerticalInRange(e, e.row - 1);
    VerticalInRange(e, e.row + 1);
    match k {
      case Type(c) => InsertFlat(e, c);
      case Back => BackspaceFlat(e);
      case Erase => DeleteFlat(e);
      case GoLeft => MovesFlat(e);
      case GoRight => MovesFlat(e);
      case GoUp => VerticalFlat(e);
      case GoDown => VerticalFlat(e);
    }
  }

  lemma {:induction false} FlatRunSnoc(f: FlatEd, keys: seq<Key>, k: Key)
    ensures FlatRun(f, keys + [k]) == FlatEdit(FlatRun(f, keys), k)
    decreases |keys|
  {
    hide FlatEdit;
    if keys == [] {
      assert (keys + [k])[1..] == [];
    } else {
      FlatRunSnoc(FlatEdit(f, keys[0]), keys[1..], k);
      assert (keys + [k])[1..] == keys[1..] + [k];
    }
  }
}
