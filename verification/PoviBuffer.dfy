/** povi's Buffer: a vector of pointers to lines, refining a sequence of strings. */
module PoviBuffer {
  import opened FlatText
  import opened Povi

  type Store = array?<char>

  /** A line's storage is p, which is owned, and its text is s. */
  ghost predicate Says(t: Text, p: Store, s: string, repr: set<object>)
    reads t, t.p
  {
    t in repr && t.p == p && (p != null ==> p in repr) && t.Valid() && t.Contents() == s
  }

  ghost predicate Shows(ts: seq<Text>, ps: seq<Store>, view: seq<string>, repr: set<object>)
    reads repr
  {
    && |ts| == |view| == |ps|
    && (forall i :: 0 <= i < |ts| ==> ts[i] in repr && (ts[i].p != null ==> ts[i].p in repr))
    && (forall i :: 0 <= i < |ts| ==> Says(ts[i], ps[i], view[i], repr))
  }

  /** Line pointers are distinct and do not share storage. */
  ghost predicate Apart(ts: seq<Text>, ps: seq<Store>)
    requires |ts| == |ps|
  {
    forall i, j :: 0 <= i < j < |ts| ==> ts[i] != ts[j] && (ps[i] == null || ps[i] != ps[j])
  }

  // ------------------------------------------------------------------ sequences

  function InsertedAt<T>(s: seq<T>, i: nat, x: T): (r: seq<T>)
    requires i <= |s|
    ensures |r| == |s| + 1 && r[i] == x
    ensures forall k :: 0 <= k < i ==> r[k] == s[k]
    ensures forall k :: i < k <= |s| ==> r[k] == s[k - 1]
  {
    s[..i] + [x] + s[i..]
  }

  function RemovedAt<T>(s: seq<T>, i: nat): (r: seq<T>)
    requires i < |s|
    ensures |r| == |s| - 1
    ensures forall k :: 0 <= k < i ==> r[k] == s[k]
    ensures forall k :: i <= k < |s| - 1 ==> r[k] == s[k + 1]
  {
    s[..i] + s[i + 1..]
  }

  lemma {:induction false} InsertedIs<T>(s: seq<T>, i: nat, x: T)
    requires i <= |s|
    ensures InsertedAt(s, i, x) == s[..i] + [x] + s[i..]
  {
  }

  lemma {:induction false} RemovedIs<T>(s: seq<T>, i: nat)
    requires i < |s|
    ensures RemovedAt(s, i) == s[..i] + s[i + 1..]
  {
  }

  // ------------------------------------------------------------------ how the pieces move

  lemma {:induction false} InsertedApart(ts: seq<Text>, ps: seq<Store>, i: nat, t: Text)
    requires |ts| == |ps| && Apart(ts, ps) && i <= |ts| && t !in ts
    ensures Apart(InsertedAt(ts, i, t), InsertedAt(ps, i, null))
  {
    hide InsertedAt;
    var ts', ps' := InsertedAt(ts, i, t), InsertedAt(ps, i, null);
    forall k, l | 0 <= k < l < |ts'| ensures ts'[k] != ts'[l] && (ps'[k] == null || ps'[k] != ps'[l]) {
      if k != i { var k' := if k < i then k else k - 1; assert ts'[k] == ts[k'] && ps'[k] == ps[k']; }
      if l != i { var l' := if l < i then l else l - 1; assert ts'[l] == ts[l'] && ps'[l] == ps[l']; }
    }
  }

  lemma {:induction false} InsertedShows(ts: seq<Text>, ps: seq<Store>, view: seq<string>, repr: set<object>, i: nat, t: Text)
    requires Shows(ts, ps, view, repr) && i <= |ts| && Says(t, null, "", repr)
    ensures Shows(InsertedAt(ts, i, t), InsertedAt(ps, i, null), InsertedAt(view, i, ""), repr)
  {
    hide InsertedAt;
    var ts', ps', view' := InsertedAt(ts, i, t), InsertedAt(ps, i, null), InsertedAt(view, i, "");
    forall k | 0 <= k < |ts'| ensures ts'[k] in repr && (ts'[k].p != null ==> ts'[k].p in repr) && Says(ts'[k], ps'[k], view'[k], repr) {
      if k != i {
        var k' := if k < i then k else k - 1;
        assert ts'[k] == ts[k'] && ps'[k] == ps[k'] && view'[k] == view[k'] && Says(ts[k'], ps[k'], view[k'], repr);
      }
    }
  }

  lemma {:induction false} RemovedApart(ts: seq<Text>, ps: seq<Store>, i: nat)
    requires |ts| == |ps| && Apart(ts, ps) && i < |ts|
    ensures Apart(RemovedAt(ts, i), RemovedAt(ps, i))
  {
    hide RemovedAt;
    var ts', ps' := RemovedAt(ts, i), RemovedAt(ps, i);
    forall k, l | 0 <= k < l < |ts'| ensures ts'[k] != ts'[l] && (ps'[k] == null || ps'[k] != ps'[l]) {
      var k', l' := if k < i then k else k + 1, if l < i then l else l + 1;
      assert ts'[k] == ts[k'] && ps'[k] == ps[k'] && ts'[l] == ts[l'] && ps'[l] == ps[l'];
    }
  }

  lemma {:induction false} RemovedShows(ts: seq<Text>, ps: seq<Store>, view: seq<string>, repr: set<object>, i: nat)
    requires Shows(ts, ps, view, repr) && i < |ts|
    ensures Shows(RemovedAt(ts, i), RemovedAt(ps, i), RemovedAt(view, i), repr)
  {
    hide RemovedAt;
    var ts', ps', view' := RemovedAt(ts, i), RemovedAt(ps, i), RemovedAt(view, i);
    forall k | 0 <= k < |ts'| ensures ts'[k] in repr && (ts'[k].p != null ==> ts'[k].p in repr) && Says(ts'[k], ps'[k], view'[k], repr) {
      var k' := if k < i then k else k + 1;
      assert ts'[k] == ts[k'] && ps'[k] == ps[k'] && view'[k] == view[k'] && Says(ts[k'], ps[k'], view[k'], repr);
    }
  }

  /** New storage for one line. */
  lemma {:induction false} StoredApart(ts: seq<Text>, ps: seq<Store>, row: nat, p: Store)
    requires |ts| == |ps| && Apart(ts, ps) && row < |ts| && (p == ps[row] || p !in ps)
    ensures Apart(ts, ps[row := p])
  {
  }

  /** One line edited; the others as they were. */
  lemma {:induction false} EditedShows(ts: seq<Text>, ps: seq<Store>, view: seq<string>, repr: set<object>, row: nat,
      p: Store, s: string, repr': set<object>)
    requires |ts| == |ps| == |view| && row < |ts| && repr <= repr' && Says(ts[row], p, s, repr')
    requires forall k :: 0 <= k < |ts| && k != row ==> Says(ts[k], ps[k], view[k], repr)
    ensures Shows(ts, ps[row := p], view[row := s], repr')
  {
    forall k | 0 <= k < |ts| ensures Says(ts[k], ps[row := p][k], view[row := s][k], repr') {
      if k != row { assert Says(ts[k], ps[k], view[k], repr); }
    }
    assert forall k :: 0 <= k < |ts| ==> Says(ts[k], ps[row := p][k], view[row := s][k], repr');
  }

  lemma {:induction false} ShowsLine(ts: seq<Text>, ps: seq<Store>, view: seq<string>, repr: set<object>, row: nat)
    requires Shows(ts, ps, view, repr) && row < |ts|
    ensures |ts| == |view| && ts[row] in repr && (ts[row].p != null ==> ts[row].p in repr)
  {
  }

  lemma {:induction false} ShowsLength(ts: seq<Text>, ps: seq<Store>, view: seq<string>, repr: set<object>)
    requires Shows(ts, ps, view, repr)
    ensures |ts| == |view|
  {
  }

  /** Owning more changes nothing. */
  lemma {:induction false} KeepShows(ts: seq<Text>, ps: seq<Store>, view: seq<string>, repr: set<object>, repr': set<object>)
    requires Shows(ts, ps, view, repr) && repr <= repr'
    ensures Shows(ts, ps, view, repr')
  {
    forall i | 0 <= i < |ts| ensures Says(ts[i], ps[i], view[i], repr') { assert Says(ts[i], ps[i], view[i], repr); }
  }

  lemma {:induction false} AllShow(ts: seq<Text>, ps: seq<Store>, view: seq<string>, repr: set<object>)
    requires |ts| == |ps| == |view| && forall k :: 0 <= k < |ts| ==> Says(ts[k], ps[k], view[k], repr)
    ensures Shows(ts, ps, view, repr)
  {
    assert forall k :: 0 <= k < |ts| ==> Says(ts[k], ps[k], view[k], repr);
  }

  lemma {:induction false} NewSays(t: Text, repr: set<object>)
    requires t in repr && t.Valid() && t.p == null
    ensures Says(t, null, "", repr)
  {
  }

  class Buffer {
    const lines: Vector<Text>
    ghost var texts: seq<Text>
    ghost var stores: seq<Store>
    ghost var view: seq<string>
    ghost var repr: set<object>

    ghost predicate Valid()
      reads this, repr
    {
      && this in repr && lines in repr && lines.arr != null && lines.arr in repr && lines.Valid() && lines.Items() == texts
      && |texts| >= 1 && Shows(texts, stores, view, repr) && Apart(texts, stores)
    }

    constructor ()
      ensures Valid() && view == [""] && fresh(repr)
    {
      lines := new Vector();
      new;
      var t := new Text();
      lines.PushBack(t);
      texts, stores, view, repr := [t], [null], [""], {this, lines, lines.arr, t};
    }

    lemma {:induction false} ViewLength()
      requires Valid()
      ensures |view| == |texts| == lines.count >= 1
    {
    }

    /** The pointer to line row. */
    method Line(row: nat) returns (l: Text)
      requires Valid() && row < |texts|
      ensures l == texts[row] && Says(l, stores[row], view[row], repr)
    {
      l := lines.arr[row];
      assert lines.arr[..lines.count][row] == lines.arr[row];
    }

    /** line_length. */
    method LineLength(row: nat) returns (n: nat)
      requires Valid() && row < |texts|
      ensures n == |view[row]|
    {
      var l := Line(row);
      n := l.len;
    }

    /** lines_[row]->insert_at(col, ch). */
    method InsertInLine(row: nat, col: int, ch: char)
      requires Valid() && row < |texts|
      modifies this`view, this`repr, this`stores, texts[row], texts[row].p
      ensures Valid() && fresh(repr - old(repr)) && repr >= old(repr)
      ensures view == old(view)[row := Ins(old(view)[row], Clamp(col, |old(view)[row]|), ch)]
    {
      hide Ins;
      var l := Line(row);
      l.InsertAt(col, ch);
      ghost var s := Ins(view[row], Clamp(col, |view[row]|), ch);
      Edited(row, l, s);
    }

    /** lines_[row]->erase_at(col). */
    method EraseInLine(row: nat, col: int)
      requires Valid() && row < |texts|
      modifies this`view, this`repr, this`stores, texts[row], texts[row].p
      ensures Valid() && fresh(repr - old(repr)) && repr >= old(repr)
      ensures view == if 0 <= col < |old(view)[row]| then old(view)[row := Del(old(view)[row], col)] else old(view)
    {
      hide Del;
      var l := Line(row);
      l.EraseAt(col);
      Edited(row, l, if 0 <= col < |view[row]| then Del(view[row], col) else view[row]);
    }

    /** lines_[row]->truncate(col). */
    method CutLine(row: nat, col: int)
      requires Valid() && row < |texts|
      modifies this`view, this`repr, this`stores, texts[row], texts[row].p
      ensures Valid() && fresh(repr - old(repr)) && repr >= old(repr)
      ensures view == old(view)[row := old(view)[row][..Clamp(col, |old(view)[row]|)]]
    {
      var l := Line(row);
      l.Truncate(col);
      Edited(row, l, view[row][..Clamp(col, |view[row]|)]);
    }

    /** lines_[row]->append(s, n). */
    method AppendToLine(row: nat, s: string)
      requires Valid() && row < |texts|
      modifies this`view, this`repr, this`stores, texts[row], texts[row].p
      ensures Valid() && fresh(repr - old(repr)) && repr >= old(repr)
      ensures view == old(view)[row := old(view)[row] + s] && texts == old(texts)
    {
      var l := Line(row);
      l.Append(s);
      Edited(row, l, view[row] + s);
    }

    /** *lines_[row] = tail, for a line of its own. */
    method SetLine(row: nat, tail: Text)
      requires Valid() && row < |texts| && tail.Valid() && tail !in repr && (tail.p == null || tail.p !in repr)
      modifies this`view, this`repr, this`stores, texts[row], texts[row].p
      ensures Valid() && fresh(repr - old(repr)) && repr >= old(repr)
      ensures view == old(view)[row := old(tail.Contents())]
    {
      var l := Line(row);
      l.Assign(tail);
      Edited(row, l, tail.Contents());
    }

    method ClearLine(row: nat)
      requires Valid() && row < |texts|
      modifies this`view, this`repr, this`stores, texts[row], texts[row].p
      ensures Valid() && fresh(repr - old(repr)) && repr >= old(repr)
      ensures view == old(view)[row := ""]
    {
      var l := Line(row);
      l.Clear();
      Edited(row, l, "");
    }

    /** Bookkeeping after line row was edited in place. */
    ghost method Edited(row: nat, l: Text, s: string)
      requires row < |texts| == |stores| == |view| && l == texts[row] && l.Valid() && l.Contents() == s
      requires Apart(texts, stores) && l in repr && (l.p == stores[row] || l.p !in stores)
      requires forall k :: 0 <= k < |texts| && k != row ==> Says(texts[k], stores[k], view[k], repr)
      modifies this`view, this`repr, this`stores
      ensures view == old(view)[row := s] && stores == old(stores)[row := l.p] && repr == old(repr) + if l.p == null then {} else {l.p}
      ensures Shows(texts, stores, view, repr) && Apart(texts, stores)
    {
      StoredApart(texts, stores, row, l.p);
      ghost var ps, v, r := stores, view, repr;
      repr, view, stores := r + (if l.p == null then {} else {l.p}), v[row := s], ps[row := l.p];
      EditedShows(texts, ps, v, r, row, l.p, s, repr);
    }

    method InsertLine(row: int)
      requires Valid()
      modifies this, lines, lines.arr
      ensures Valid() && fresh(repr - old(repr)) && repr >= old(repr)
      ensures view == InsertedAt(old(view), Clamp(row, |old(view)|), "")
    {
      var t := new Text();
      var i := Clamp(row, lines.count);
      lines.Insert(i, t);
      Inserted(i, t);
    }

    /** Bookkeeping after a new line was linked in. */
    ghost method Inserted(i: nat, t: Text)
      requires |texts| == |stores| == |view| && i <= |texts| && Apart(texts, stores) && t !in texts
      requires t.Valid() && t.p == null && lines.arr != null
      requires forall k :: 0 <= k < |texts| ==> Says(texts[k], stores[k], view[k], repr)
      modifies this`texts, this`view, this`repr, this`stores
      ensures texts == old(texts)[..i] + [t] + old(texts)[i..] && |texts| == |old(texts)| + 1
      ensures view == InsertedAt(old(view), i, "") && repr == old(repr) + {t, lines.arr}
      ensures Shows(texts, stores, view, repr) && Apart(texts, stores)
    {
      hide Says, InsertedAt, Apart, Shows;
      ghost var ts, ps, v, r := texts, stores, view, repr;
      InsertedApart(ts, ps, i, t);
      InsertedIs(ts, i, t);
      repr := r + {t, lines.arr};
      texts, stores, view := InsertedAt(ts, i, t), InsertedAt(ps, i, null), InsertedAt(v, i, "");
      NewSays(t, repr);
      AllShow(ts, ps, v, r);
      KeepShows(ts, ps, v, r, repr);
      InsertedShows(ts, ps, v, repr, i, t);
    }

    method DeleteLine(row: int)
      requires Valid()
      modifies repr
      ensures Valid() && fresh(repr - old(repr)) && repr >= old(repr)
      ensures view == if !(0 <= row < |old(view)|) then old(view) else if |old(view)| == 1 then [""] else RemovedAt(old(view), row)
    {
      if row < 0 || row >= lines.count {
        return;
      }
      if lines.count == 1 {
        ClearLine(0);
        return;
      }
      RemoveLine(row);
    }

    /** lines_.remove(row), with another line left. */
    method RemoveLine(row: nat)
      requires Valid() && row < |texts| && |texts| > 1
      modifies this, lines, lines.arr
      ensures Valid() && repr == old(repr) && view == RemovedAt(old(view), row)
    {
      lines.Remove(row);
      ghost var ts, ps, v := texts, stores, view;
      RemovedApart(ts, ps, row);
      texts, stores, view := RemovedAt(ts, row), RemovedAt(ps, row), RemovedAt(v, row);
      assert forall k :: 0 <= k < |ts| ==> Says(ts[k], ps[k], v[k], repr);
      assert Shows(ts, ps, v, repr);
      hide Says, RemovedAt, Apart, Shows;
      RemovedShows(ts, ps, v, repr, row);
      RemovedIs(ts, row);
    }

    /** Buffer::insert_char. */
    method InsertChar(row: int, col: int, ch: char)
      requires Valid()
      modifies repr
      ensures Valid() && fresh(repr - old(repr)) && repr >= old(repr)
      ensures view == InsertIn(old(view), row, col, ch)
    {
      if row < 0 || row >= lines.count {
        return;
      }
      if ch == '\n' {
        SplitLine(row, col);
        return;
      }
      InsertInLine(row, col, ch);
    }

    /** The newline case. */
    method SplitLine(row: nat, col: int)
      requires Valid() && row < |texts|
      modifies repr
      ensures Valid() && fresh(repr - old(repr)) && repr >= old(repr)
      ensures view == InsertIn(old(view), row, col, '\n')
    {
      hide *;
      ghost var v := view;
      var tail := CutTail(row, col);
      AddTail(row + 1, tail);
      SplitView(v, row, col);
    }

    /** lines_[row]->substr(col), then lines_[row]->truncate(col). */
    method CutTail(row: nat, col: int) returns (tail: Text)
      requires Valid() && row < |texts|
      modifies repr
      ensures Valid() && fresh(repr - old(repr)) && repr >= old(repr) && |view| == |old(view)| == |old(texts)|
      ensures fresh(tail) && tail.Valid() && tail !in repr && (tail.p == null || tail.p !in repr)
      ensures var i := Clamp(col, |old(view)[row]|); view == old(view)[row := old(view)[row][..i]] && tail.Contents() == old(view)[row][i..]
    {
      var l := Line(row);
      tail := l.Substr(col);
      assert this in repr && l in repr && (l.p != null ==> l.p in repr);
      hide Shows, Apart;
      CutLine(row, col);
    }

    /** insert_line(row) and *lines_[row] = tail. */
    method AddTail(row: nat, tail: Text)
      requires Valid() && row <= |view| && tail.Valid() && tail !in repr && (tail.p == null || tail.p !in repr)
      modifies repr
      ensures Valid() && fresh(repr - old(repr)) && repr >= old(repr)
      ensures view == InsertedAt(old(view), row, old(tail.Contents()))
    {
      ghost var v := view;
      InsertLine(row);
      hide Shows, Apart, Says;
      ShowsLength(texts, stores, view, repr);
      ShowsLine(texts, stores, view, repr, row);
      SetLine(row, tail);
      assert view == InsertedAt(v, row, "")[row := old(tail.Contents())] == InsertedAt(v, row, old(tail.Contents()));
    }

    /** Buffer::delete_char. */
    method DeleteChar(row: int, col: int)
      requires Valid()
      modifies repr
      ensures Valid() && fresh(repr - old(repr)) && repr >= old(repr)
      ensures view == DeleteIn(old(view), row, col)
    {
      if row < 0 || row >= lines.count {
        return;
      }
      var n := LineLength(row);
      if col < n {
        EraseInLine(row, col);
      } else if row + 1 < lines.count {
        JoinLine(row);
      }
    }

    /** The case of a newline between two lines. */
    method JoinLine(row: nat)
      requires Valid() && row + 1 < |texts|
      modifies repr
      ensures Valid() && fresh(repr - old(repr)) && repr >= old(repr)
      ensures view == old(view)[..row] + [old(view)[row] + old(view)[row + 1]] + old(view)[row + 2..]
    {
      hide *;
      ghost var v := view;
      AppendNext(row);
      DeleteLine(row + 1);
      JoinView(v, row);
    }

    /** lines_[row]->append of the next line's characters. */
    method AppendNext(row: nat)
      requires Valid() && row + 1 < |texts|
      modifies repr
      ensures Valid() && fresh(repr - old(repr)) && repr >= old(repr) && |view| == |old(view)| == |old(texts)|
      ensures view == old(view)[row := old(view)[row] + old(view)[row + 1]]
    {
      var next := Line(row + 1);
      assert this in repr && texts[row] in repr && (texts[row].p != null ==> texts[row].p in repr);
      AppendToLine(row, if next.p == null then "" else next.p[..next.len]);
    }
  }

  lemma {:induction false} SplitView(v: seq<string>, row: nat, col: int)
    requires row < |v|
    ensures var i := Clamp(col, |v[row]|);
            InsertedAt(v[row := v[row][..i]], row + 1, v[row][i..]) == InsertIn(v, row, col, '\n')
  {
  }

  lemma {:induction false} JoinView(v: seq<string>, row: nat)
    requires row + 1 < |v|
    ensures RemovedAt(v[row := v[row] + v[row + 1]], row + 1) == v[..row] + [v[row] + v[row + 1]] + v[row + 2..]
  {
  }
}
