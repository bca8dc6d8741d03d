/** Optional values: JavaScript's `null` / `undefined` and "not found". */
module Wrappers {
  datatype Option<+T> = None | Some(value: T) {
    function GetOr(default: T): T {
      match this
      case Some(v) => v
      case None => default
    }
  }
}

/** Order-preserving selection and first-match search over sequences (Array.prototype.filter / findIndex). */
module Seqs {
  import opened Wrappers

  /** The elements of `s` that satisfy `keep`, in their original order. */
  function Filter<T>(keep: T -> bool, s: seq<T>): (r: seq<T>)
    ensures |r| <= |s|
    ensures forall i :: 0 <= i < |r| ==> r[i] in s && keep(r[i])
    decreases |s|
  {
    if s == [] then [] else (if keep(s[0]) then [s[0]] else []) + Filter(keep, s[1..])
  }

  /** Extending a prefix by one element. */
  lemma TakeSnoc<T>(s: seq<T>, i: int)
    requires 0 <= i < |s|
    ensures s[..i + 1] == s[..i] + [s[i]]
  {
  }

  /** Dropping the head of a suffix. */
  lemma DropOne<T>(s: seq<T>, i: int)
    requires 0 <= i < |s|
    ensures s[i..][1..] == s[i + 1..]
  {
  }

  lemma AppendAssoc<T>(a: seq<T>, b: seq<T>, c: seq<T>)
    ensures (a + b) + c == a + (b + c)
  {
  }

  /** Nothing that satisfies `keep` is dropped. */
  lemma {:induction false} FilterComplete<T>(keep: T -> bool, s: seq<T>)
    ensures forall i :: 0 <= i < |s| && keep(s[i]) ==> s[i] in Filter(keep, s)
    decreases |s|
  {
    if s != [] {
      FilterComplete(keep, s[1..]);
      forall i | 1 <= i < |s| && keep(s[i]) ensures s[i] in Filter(keep, s) {
        assert s[i] == s[1..][i - 1];
      }
    }
  }

  /** Filtering distributes over concatenation: the selection keeps the relative order of the input. */
  lemma {:induction false} FilterConcat<T>(keep: T -> bool, a: seq<T>, b: seq<T>)
    ensures Filter(keep, a + b) == Filter(keep, a) + Filter(keep, b)
    decreases |a|
  {
    if a == [] {
      assert a + b == b;
    } else {
      assert (a + b)[0] == a[0];
      assert (a + b)[1..] == a[1..] + b;
      FilterConcat(keep, a[1..], b);
    }
  }

  /** When every element is kept, nothing is dropped. */
  lemma {:induction false} FilterKeepsAll<T>(keep: T -> bool, s: seq<T>)
    requires forall i :: 0 <= i < |s| ==> keep(s[i])
    ensures Filter(keep, s) == s
    decreases |s|
  {
    if s != [] {
      FilterKeepsAll(keep, s[1..]);
    }
  }

  /** Two predicates that agree on every element select the same subsequence. */
  lemma {:induction false} FilterExtensional<T>(f: T -> bool, g: T -> bool, s: seq<T>)
    requires forall i :: 0 <= i < |s| ==> f(s[i]) == g(s[i])
    ensures Filter(f, s) == Filter(g, s)
    decreases |s|
  {
    if s != [] {
      FilterExtensional(f, g, s[1..]);
    }
  }

  /** Two distinct kept positions leave at least two elements in the selection. */
  lemma {:induction false} FilterTwo<T>(keep: T -> bool, s: seq<T>, i: nat, j: nat)
    requires i < j < |s| && keep(s[i]) && keep(s[j])
    ensures |Filter(keep, s)| >= 2
    decreases |s|
  {
    if i == 0 {
      FilterComplete(keep, s[1..]);
      assert s[j] == s[1..][j - 1];
      assert s[j] in Filter(keep, s[1..]);
    } else {
      FilterTwo(keep, s[1..], i - 1, j - 1);
    }
  }

  /** A single kept position yields exactly that one element. */
  lemma {:induction false} FilterOne<T>(keep: T -> bool, s: seq<T>, i: nat)
    requires i < |s| && keep(s[i])
    requires forall j :: 0 <= j < |s| && j != i ==> !keep(s[j])
    ensures Filter(keep, s) == [s[i]]
    decreases |s|
  {
    if i == 0 {
      assert forall j :: 0 <= j < |s[1..]| ==> !keep(s[1..][j]) by {
        forall j | 0 <= j < |s[1..]| ensures !keep(s[1..][j]) {
          assert s[1..][j] == s[j + 1];
        }
      }
      FilterNone(keep, s[1..]);
    } else {
      assert !keep(s[0]);
      forall j | 0 <= j < |s[1..]| && j != i - 1 ensures !keep(s[1..][j]) {
        assert s[1..][j] == s[j + 1];
      }
      FilterOne(keep, s[1..], i - 1);
    }
  }

  /** Nothing kept, nothing selected. */
  lemma {:induction false} FilterNone<T>(keep: T -> bool, s: seq<T>)
    requires forall j :: 0 <= j < |s| ==> !keep(s[j])
    ensures Filter(keep, s) == []
    decreases |s|
  {
    if s != [] {
      FilterNone(keep, s[1..]);
    }
  }

  /** The index of the first element satisfying `p` (findIndex), or None when there is none (findIndex's -1). */
  function FirstWhere<T>(p: T -> bool, s: seq<T>): (r: Option<nat>)
    ensures r.None? <==> forall i :: 0 <= i < |s| ==> !p(s[i])
    ensures r.Some? ==> r.value < |s| && p(s[r.value])
    ensures r.Some? ==> forall j :: 0 <= j < r.value ==> !p(s[j])
    decreases |s|
  {
    if s == [] then None
    else if p(s[0]) then Some(0)
    else
      match FirstWhere(p, s[1..])
      case None => None
      case Some(i) => Some(i + 1)
  }
}

/** Character classes and string operations used by the password rules and the search filters. */
module Text {
  predicate IsLower(c: char) { 'a' <= c <= 'z' }
  predicate IsUpper(c: char) { 'A' <= c <= 'Z' }
  predicate IsDigit(c: char) { '0' <= c <= '9' }
  predicate IsAlphaNum(c: char) { IsLower(c) || IsUpper(c) || IsDigit(c) }

  /** String.prototype.toLowerCase restricted to ASCII letters. */
  function LowerChar(c: char): char {
    if IsUpper(c) then (c as int + 32) as char else c
  }

  function ToLower(s: string): (r: string)
    ensures |r| == |s|
    ensures forall i :: 0 <= i < |s| ==> r[i] == LowerChar(s[i])
  {
    seq(|s|, i requires 0 <= i < |s| => LowerChar(s[i]))
  }

  /** Lower-casing twice is lower-casing once. */
  lemma ToLowerIdempotent(s: string)
    ensures ToLower(ToLower(s)) == ToLower(s)
  {
    assert forall i :: 0 <= i < |s| ==> LowerChar(LowerChar(s[i])) == LowerChar(s[i]);
  }

  /** `needle` occurs in `hay` starting at position i. */
  predicate OccursAt(hay: string, needle: string, i: int) {
    0 <= i && i + |needle| <= |hay| && hay[i..i + |needle|] == needle
  }

  /** String.prototype.includes. */
  predicate Contains(hay: string, needle: string) {
    exists i :: 0 <= i <= |hay| - |needle| && OccursAt(hay, needle, i)
  }

  /** Array.prototype.join. */
  function Join(parts: seq<string>, sep: string): (r: string)
    ensures parts != [] && parts[0] != [] ==> r != [] && r[0] == parts[0][0]
    decreases |parts|
  {
    if parts == [] then ""
    else if |parts| == 1 then parts[0]
    else parts[0] + sep + Join(parts[1..], sep)
  }
}
