/** povi's String and Vector: growing arrays, shifted in place. */
module Povi {
  import opened FlatText

  /** The loop that opens a gap at from: every element up to end moves one place up. */
  method ShiftUp<T>(a: array<T>, from: nat, end: nat)
    requires from <= end < a.Length
    modifies a
    ensures forall k :: 0 <= k < from ==> a[k] == old(a[k])
    ensures forall k :: from < k <= end ==> a[k] == old(a[k - 1])
  {
    var i := end;
    while i > from
      invariant from <= i <= end
      invariant forall k :: 0 <= k <= i ==> a[k] == old(a[k])
      invariant forall k :: i < k <= end ==> a[k] == old(a[k - 1])
    {
      a[i] := a[i - 1];
      i := i - 1;
    }
  }

  /** Opening the gap and filling it. */
  method Open<T>(a: array<T>, i: nat, n: nat, v: T)
    requires i <= n < a.Length
    modifies a
    ensures a[..n + 1] == old(a[..n])[..i] + [v] + old(a[..n])[i..]
  {
    ShiftUp(a, i, n);
    a[i] := v;
  }

  /** String: a growing character array with a NUL after its contents. */
  class Text {
    var p: array?<char>
    var len: nat

    ghost predicate Valid()
      reads this, p
    {
      if p == null then len == 0 else len < p.Length && p[len] == '\0'
    }

    ghost function Contents(): string
      requires Valid()
      reads this, p
    {
      if p == null then "" else p[..len]
    }

    constructor ()
      ensures Valid() && Contents() == "" && p == null
    {
      p := null;
      len := 0;
    }

    method Clear()
      requires Valid()
      modifies this, p
      ensures Valid() && Contents() == "" && p == old(p)
    {
      len := 0;
      if p != null {
        p[0] := '\0';
      }
    }

    /** Room for need characters, keeping the contents. */
    method Reserve(need: nat)
      requires Valid() && need > len
      modifies this`p
      ensures Valid() && Contents() == old(Contents()) && len == old(len)
      ensures p != null && p.Length >= need && (p == old(p) || fresh(p))
    {
      var cap := if p == null then 0 else p.Length;
      if cap >= need {
        return;
      }
      var newCap := if cap > 0 then cap * 2 else 16;
      while newCap < need
        invariant newCap > cap
        decreases need - newCap
      {
        newCap := newCap * 2;
      }
      var np := new char[newCap](_ => '\0');
      if p != null {
        forall i | 0 <= i < len + 1 { np[i] := p[i]; }
        assert np[..len] == p[..len];
      }
      p := np;
    }

    /** append(s, n). */
    method Append(s: string)
      requires Valid()
      modifies this, p
      ensures Valid() && Contents() == old(Contents()) + s
      ensures p == old(p) || fresh(p)
    {
      ghost var was := Contents();
      Reserve(len + |s| + 1);
      ghost var mid := p[..];
      assert mid[..len] == was;
      forall i | 0 <= i < |s| { p[len + i] := s[i]; }
      assert p[..len] == mid[..len] == was;
      len := len + |s|;
      p[len] := '\0';
      assert p[..len] == was + s;
    }

    method InsertAt(index: int, c: char)
      requires Valid()
      modifies this, p
      ensures Valid() && Contents() == Ins(old(Contents()), Clamp(index, |old(Contents())|), c)
      ensures p == old(p) || fresh(p)
    {
      var idx := index;
      if idx < 0 { idx := 0; }
      if idx > len { idx := len; }
      Reserve(len + 2);
      Open(p, idx, len, c);
      len := len + 1;
      ghost var now := p[..len];
      p[len] := '\0';
      assert p[..len] == now;
    }

    method EraseAt(idx: int)
      requires Valid()
      modifies this, p
      ensures Valid() && p == old(p)
      ensures Contents() == if 0 <= idx < |old(Contents())| then Del(old(Contents()), idx) else old(Contents())
    {
      if idx < 0 || idx >= len {
        return;
      }
      ghost var was := Contents();
      var i := idx;
      while i < len
        invariant idx <= i <= len && len == |was| && p == old(p) && p != null && len < p.Length && p[len] == '\0'
        invariant forall k :: 0 <= k < idx ==> p[k] == was[k]
        invariant forall k :: idx <= k < i ==> p[k] == if k + 1 < len then was[k + 1] else '\0'
        invariant forall k :: i <= k < len ==> p[k] == was[k]
        modifies p
      {
        p[i] := p[i + 1];
        i := i + 1;
      }
      len := len - 1;
      assert p[..len] == Del(was, idx);
    }

    method Truncate(n: int)
      requires Valid()
      modifies this, p
      ensures Valid() && p == old(p) && Contents() == old(Contents())[..Clamp(n, |old(Contents())|)]
    {
      ghost var was := Contents();
      len := Clamp(n, len);
      if p != null {
        p[len] := '\0';
        assert p[..len] == was[..len];
      }
    }

    method Substr(from: int) returns (r: Text)
      requires Valid()
      ensures fresh(r) && r.Valid() && (r.p == null || fresh(r.p)) && r.Contents() == Contents()[Clamp(from, |Contents()|)..]
    {
      r := new Text();
      var i := Clamp(from, len);
      r.Append(if p == null then "" else p[i..len]);
      assert p != null ==> p[i..len] == p[..len][i..];
    }

    /** operator=. Assigning a string to itself empties it, since it is cleared before it is read. */
    method Assign(o: Text)
      requires Valid() && o.Valid() && (o == this || o.p == null || o.p != p)
      modifies this, p
      ensures Valid() && o.Valid() && Contents() == if o == this then "" else old(o.Contents())
      ensures o != this ==> o.Contents() == old(o.Contents())
      ensures p == old(p) || fresh(p)
    {
      Clear();
      Append(if o.p == null then "" else o.p[..o.len]);
    }
  }

  /** Vector: a growing array of pointers. */
  class Vector<T> {
    var arr: array?<T>
    var count: nat

    ghost predicate Valid()
      reads this, arr
    {
      if arr == null then count == 0 else count <= arr.Length
    }

    ghost function Items(): seq<T>
      requires Valid()
      reads this, arr
    {
      if arr == null then [] else arr[..count]
    }

    constructor ()
      ensures Valid() && Items() == [] && arr == null
    {
      arr := null;
      count := 0;
    }

    /** grow: double the array; fill stands for the memory past the copied part. */
    method Grow(fill: T)
      requires Valid()
      modifies this`arr
      ensures Valid() && Items() == old(Items()) && count == old(count) && arr != null && count < arr.Length && fresh(arr)
    {
      var cap := if arr == null then 0 else arr.Length;
      var newCap := if cap > 0 then cap * 2 else 8;
      var na := new T[newCap](_ => fill);
      var i := 0;
      while i < count
        invariant i <= count && forall k :: 0 <= k < i ==> na[k] == Items()[k]
        invariant Valid() && Items() == old(Items())
        modifies na
      {
        na[i] := arr[i];
        i := i + 1;
      }
      ghost var was := Items();
      arr := na;
      assert arr[..count] == was;
    }

    method PushBack(v: T)
      requires Valid()
      modifies this, arr
      ensures Valid() && Items() == old(Items()) + [v] && (arr == old(arr) || fresh(arr)) && arr != null
    {
      ghost var was := Items();
      if arr == null || count == arr.Length {
        Grow(v);
      }
      assert arr[..count] == was;
      arr[count] := v;
      count := count + 1;
      assert arr[..count] == was + [v];
    }

    method Insert(index: int, v: T)
      requires Valid()
      modifies this, arr
      ensures Valid() && (arr == old(arr) || fresh(arr)) && arr != null
      ensures var i := Clamp(index, |old(Items())|); Items() == old(Items())[..i] + [v] + old(Items())[i..]
    {
      var idx := index;
      if idx < 0 { idx := 0; }
      if idx > count { idx := count; }
      if arr == null || count == arr.Length {
        Grow(v);
      }
      Open(arr, idx, count, v);
      count := count + 1;
    }

    method Remove(idx: int)
      requires Valid()
      modifies this, arr
      ensures Valid() && arr == old(arr)
      ensures Items() == if 0 <= idx < |old(Items())| then old(Items())[..idx] + old(Items())[idx + 1..] else old(Items())
    {
      if idx < 0 || idx >= count {
        return;
      }
      ghost var was := Items();
      var i := idx;
      while i < count - 1
        invariant idx <= i <= count - 1 && count == |was| && arr == old(arr) && arr != null && count <= arr.Length
        invariant forall k :: 0 <= k < idx ==> arr[k] == was[k]
        invariant forall k :: idx <= k < i ==> arr[k] == was[k + 1]
        invariant forall k :: i <= k < count ==> arr[k] == was[k]
        modifies arr
      {
        arr[i] := arr[i + 1];
        i := i + 1;
      }
      count := count - 1;
      assert arr[..count] == was[..idx] + was[idx + 1..];
    }
  }
}
