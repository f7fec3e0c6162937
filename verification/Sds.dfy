/** Dynamic strings of `sds.c`: the buffer behind them, ranges, splitting, and
  quoting with its inverse. */
module Sds {
  import opened Common

  /** The bytes `sdsrange` keeps: both ends may count from the back. */
  function Range(s: string, start: int, end: int): (r: string)
    ensures |r| <= |s|
  {
    var len := |s|;
    if len == 0 then s
    else
      var from := if start < 0 then (if len + start < 0 then 0 else len + start) else start;
      var to := if end < 0 then (if len + end < 0 then 0 else len + end) else end;
      if from > to || from >= len then ""
      else s[from..(if to >= len then len else to + 1)]
  }

  lemma RangeSuffix(s: string, p: nat)
    requires p <= |s|
    ensures Range(s, p, -1) == s[p..]
  {
  }

  // ---------------------------------------------------------------- the buffer

  /** `sdshdr`: `len` bytes in use, `free` bytes to spare, and a NUL. */
  class String {
    var buf: array<char>
    var len: nat
    var free: nat

    ghost predicate Valid()
      reads this, buf
    {
      len + free + 1 == buf.Length && buf[len] == '\0'
    }

    function Contents(): string
      requires Valid()
      reads this, buf
    {
      buf[..len]
    }

    /** `sdsnewlen` */
    constructor (init: string)
      ensures Valid() && Contents() == init && free == 0 && fresh(buf)
    {
      buf := new char[|init| + 1](i requires 0 <= i < |init| + 1 => if i < |init| then init[i] else '\0');
      len, free := |init|, 0;
      new;
      assert buf[..len] == init;
    }

    /** `sdsMakeRoomFor`: twice what is needed, when there is not enough. */
    method MakeRoomFor(more: nat)
      requires Valid()
      modifies this`buf, this`free
      ensures Valid() && free >= more && len == old(len) && Contents() == old(Contents())
      ensures buf == old(buf) || fresh(buf)
      ensures if old(free) >= more then buf == old(buf) && free == old(free) else len + free == 2 * (len + more)
    {
      if free >= more {
        return;
      }
      var size := (len + more) * 2;
      var was := buf;
      buf := new char[size + 1](i requires 0 <= i < size + 1 reads was => if i < was.Length then was[i] else '\0');
      free := size - len;
      assert buf[..len] == was[..len];
    }

    /** `sdscatlen` */
    method CatLen(t: string)
      requires Valid()
      modifies this, buf
      ensures Valid() && Contents() == old(Contents()) + t
      ensures len + free == if old(free) >= |t| then old(len + free) else 2 * len
      ensures buf == old(buf) || fresh(buf)
    {
      MakeRoomFor(|t|);
      ghost var was := Contents();
      forall i | 0 <= i < |t| { buf[len + i] := t[i]; }
      len, free := len + |t|, free - |t|;
      buf[len] := '\0';
      assert buf[..len] == was + t;
    }

    /** The part of a string of `len` bytes that `sdsrange` keeps. */
    static method Clip(len: nat, from: int, to: int) returns (start: int, newLen: nat)
      requires len > 0
      ensures newLen > 0 ==> 0 <= start && start + newLen <= len
      ensures forall s: string | |s| == len :: Range(s, from, to) == if newLen > 0 then s[start..start + newLen] else ""
    {
      start := from;
      var end := to;
      if start < 0 {
        start := len + start;
        if start < 0 {
          start := 0;
        }
      }
      if end < 0 {
        end := len + end;
        if end < 0 {
          end := 0;
        }
      }
      newLen := if start > end then 0 else end - start + 1;
      if newLen != 0 {
        if start >= len {
          newLen := 0;
        } else if end >= len {
          end := len - 1;
          newLen := end - start + 1;
        }
      } else {
        start := 0;
      }
    }

    /** `sdsrange`: in place. */
    method KeepRange(from: int, to: int)
      requires Valid()
      modifies this`len, this`free, buf
      ensures Valid() && Contents() == Range(old(Contents()), from, to) && len + free == old(len + free)
    {
      if len == 0 {
        return;
      }
      ghost var was := Contents();
      var start, newLen := Clip(len, from, to);
      if start != 0 && newLen != 0 {
        forall i | 0 <= i < newLen { buf[i] := buf[start + i]; }
      }
      buf[newLen] := '\0';
      free := free + (len - newLen);
      len := newLen;
      if newLen > 0 { assert buf[..len] == was[start..start + newLen]; }
    }
  }

  // ----------------------------------------------------------------- splitting

  function Join(tokens: seq<string>, sep: string): string {
    if tokens == [] then "" else if |tokens| == 1 then tokens[0] else tokens[0] + sep + Join(tokens[1..], sep)
  }

  predicate OccursAt(s: string, sep: string, j: nat) { j + |sep| <= |s| && s[j..j + |sep|] == sep }

  predicate Occurs(s: string, sep: string) { exists j :: 0 <= j <= |s| && OccursAt(s, sep, j) }

  lemma {:induction false} JoinSnoc(tokens: seq<string>, sep: string, t: string)
    requires tokens != []
    ensures Join(tokens + [t], sep) == Join(tokens, sep) + sep + t
  {
    var all := tokens + [t];
    assert all[0] == tokens[0] && all[1..] == tokens[1..] + [t];
    if |tokens| == 1 {
      assert Join(all[1..], sep) == t;
    } else {
      JoinSnoc(tokens[1..], sep, t);
      assert tokens[0] + sep + (Join(tokens[1..], sep) + sep + t) == tokens[0] + sep + Join(tokens[1..], sep) + sep + t;
    }
  }

  /** What has been split off, in front of what has not. */
  function Behind(tokens: seq<string>, sep: string): string {
    if tokens == [] then "" else Join(tokens, sep) + sep
  }

  lemma BehindSnoc(tokens: seq<string>, sep: string, t: string)
    ensures Behind(tokens + [t], sep) == Behind(tokens, sep) + t + sep
    ensures Join(tokens + [t], sep) == Behind(tokens, sep) + t
  {
    if tokens == [] {
      assert tokens + [t] == [t] && "" + t == t;
    } else {
      JoinSnoc(tokens, sep, t);
    }
  }

  /** A piece in which the separator has not been found is free of it. */
  lemma PieceFree(s: string, sep: string, start: nat, end: nat)
    requires start <= end <= |s| && |sep| > 0
    requires forall j: nat :: start <= j && OccursAt(s, sep, j) ==> j + |sep| > end
    ensures !Occurs(s[start..end], sep)
  {
    var t := s[start..end];
    forall j: nat | j <= |t| ensures !OccursAt(t, sep, j) {
      if j + |sep| <= |t| {
        SliceOfSlice(s, start, end, j, |sep|);
        assert !OccursAt(s, sep, start + j);
      }
    }
  }

  lemma SliceOfSlice(s: string, start: nat, end: nat, j: nat, n: nat)
    requires start <= end <= |s| && j + n <= end - start
    ensures s[start..end][j..j + n] == s[start + j..start + j + n]
  {
    var t, u := s[start..end], s[start..end][j..j + n];
    assert forall k :: 0 <= k < n ==> u[k] == s[start + j + k];
  }

  /** The separator behind a piece is the first there is. */
  ghost predicate EndsAtFirst(t: string, sep: string) { forall j: nat :: OccursAt(t + sep, sep, j) ==> j == |t| }

  /** A separator found at `j`. */
  lemma PieceFound(s: string, sep: string, found: seq<string>, start: nat, j: nat)
    requires start <= j && OccursAt(s, sep, j) && |sep| > 0 && Behind(found, sep) == s[..start]
    requires forall k: nat :: start <= k && OccursAt(s, sep, k) ==> k >= j
    ensures !Occurs(s[start..j], sep) && Behind(found + [s[start..j]], sep) == s[..j + |sep|] && EndsAtFirst(s[start..j], sep)
  {
    var t := s[start..j];
    assert t + sep == s[start..j + |sep|];
    forall i: nat | OccursAt(t + sep, sep, i) ensures i == |t| {
      SliceOfSlice(s, start, j + |sep|, i, |sep|);
      assert OccursAt(s, sep, start + i);
    }
    PieceFree(s, sep, start, j);
    BehindSnoc(found, sep, s[start..j]);
    assert s[..start] + s[start..j] == s[..j] && s[..j] + s[j..j + |sep|] == s[..j + |sep|];
  }

  /** The piece behind the last separator. */
  lemma PieceLast(s: string, sep: string, found: seq<string>, start: nat)
    requires start <= |s| && |sep| > 0 && Behind(found, sep) == s[..start]
    requires forall k: nat :: start <= k ==> !OccursAt(s, sep, k)
    ensures !Occurs(s[start..], sep) && Join(found + [s[start..]], sep) == s
  {
    PieceFree(s, sep, start, |s|);
    BehindSnoc(found, sep, s[start..]);
    assert s[start..|s|] == s[start..] && s[..start] + s[start..] == s;
  }

  /** `sdssplitlen`: nothing for an empty separator; else the pieces between the
      separators, which joined again are the string. */
  method SplitLen(s: string, sep: string) returns (tokens: Option<seq<string>>)
    ensures sep == "" ==> tokens.None?
    ensures sep != "" ==> tokens.Some? && Join(tokens.value, sep) == s && forall t <- tokens.value :: !Occurs(t, sep)
    ensures sep != "" ==> (tokens.value == [] <==> s == "") && forall k :: 0 <= k < |tokens.value| - 1 ==> EndsAtFirst(tokens.value[k], sep)
  {
    if |sep| < 1 {
      return None;
    }
    if |s| == 0 {
      return Some([]);
    }
    var found: seq<string>, start: nat, j: nat := [], 0, 0;
    while j < |s| - (|sep| - 1)
      invariant start <= j <= |s| && Behind(found, sep) == s[..start]
      invariant forall k: nat :: start <= k && OccursAt(s, sep, k) ==> k >= j
      invariant (forall t <- found :: !Occurs(t, sep)) && forall k :: 0 <= k < |found| ==> EndsAtFirst(found[k], sep)
    {
      if s[j..j + |sep|] == sep {
        PieceFound(s, sep, found, start, j);
        found := found + [s[start..j]];
        start := j + |sep|;
        j := j + |sep| - 1;
      }
      j := j + 1;
    }
    PieceLast(s, sep, found, start);
    tokens := Some(found + [s[start..]]);
  }
}
