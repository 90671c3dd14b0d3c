/** The JavaScript values that cross the node's HTTP boundary (parsed JSON),
    with the handful of built-in operations the bridge applies to them. */
module Js {

  import opened Results

  /** A parsed JSON value. Numbers are integers here: every number the
      bridge reads is a block height, an output index or a count. */
  datatype Value =
    | Undefined
    | Null
    | Bool(b: bool)
    | Num(n: int)
    | Str(s: string)
    | Arr(items: seq<Value>)
    | Obj(fields: map<string, Value>)

  /** `x !== undefined && x !== null` */
  predicate IsSpecified(v: Value) {
    !v.Undefined? && !v.Null?
  }

  /** `typeof x === "object" && x !== null && !Array.isArray(x)` */
  predicate IsObject(v: Value) {
    v.Obj?
  }

  /** Property read `v.name` on a value that is not null or undefined:
      a missing property reads as undefined. */
  function Get(v: Value, name: string): (r: Value)
    ensures !v.Obj? ==> r == Undefined
    ensures v.Obj? && name in v.fields ==> r == v.fields[name]
  {
    if v.Obj? && name in v.fields then v.fields[name] else Undefined
  }

  const CANNOT_READ: string := "TypeError: cannot read property "

  /** Property read `v.name` as JavaScript performs it: reading a property
      of null or undefined throws a TypeError. */
  function Field(v: Value, name: string): (r: Result<Value>)
    ensures r.Err? <==> !IsSpecified(v)
    ensures r.Ok? ==> r.value == Get(v, name)
  {
    if IsSpecified(v) then Ok(Get(v, name)) else Err(CANNOT_READ + name)
  }

  /** `a === b` on parsed JSON: primitives compare by value; two objects or
      arrays are never identical, since each parsed value is a fresh object. */
  predicate StrictEq(a: Value, b: Value) {
    !a.Obj? && !a.Arr? && a == b
  }

  /** `s.split(c)` for a one-character separator. */
  function Split(s: string, c: char): (parts: seq<string>)
    ensures |parts| >= 1
    decreases |s|
  {
    if |s| == 0 then [""]
    else
      var rest := Split(s[1..], c);
      if s[0] == c then [""] + rest else [[s[0]] + rest[0]] + rest[1..]
  }

  /** `parts.join(c)` */
  function Join(parts: seq<string>, c: char): string
  {
    if |parts| == 0 then ""
    else if |parts| == 1 then parts[0]
    else parts[0] + [c] + Join(parts[1..], c)
  }

  /** The number of occurrences of `c` in `s`. */
  function Count(s: string, c: char): nat
  {
    if |s| == 0 then 0 else (if s[0] == c then 1 else 0) + Count(s[1..], c)
  }

  /** No piece of a split holds the separator. */
  lemma {:induction false} SplitPiecesFree(s: string, c: char)
    ensures forall i :: 0 <= i < |Split(s, c)| ==> c !in Split(s, c)[i]
    decreases |s|
  {
    if |s| > 0 {
      SplitPiecesFree(s[1..], c);
    }
  }

  /** A split has one piece more than the string has separators. */
  lemma {:induction false} SplitLength(s: string, c: char)
    ensures |Split(s, c)| == Count(s, c) + 1
    decreases |s|
  {
    if |s| > 0 {
      SplitLength(s[1..], c);
    }
  }

  /** Joining the pieces of a split gives back the string. */
  lemma {:induction false} JoinSplit(s: string, c: char)
    ensures Join(Split(s, c), c) == s
    decreases |s|
  {
    if |s| > 0 {
      JoinSplit(s[1..], c);
      var rest := Split(s[1..], c);
      if s[0] != c {
        var parts := Split(s, c);
        if |rest| == 1 {
          assert parts == [[s[0]] + rest[0]];
        } else {
          assert parts[1..] == rest[1..];
          assert Join(rest, c) == rest[0] + [c] + Join(rest[1..], c);
          assert s == [s[0]] + s[1..];
        }
      }
    }
  }

  /** Splitting a join of separator-free pieces gives back the pieces. */
  lemma {:induction false} SplitJoin(parts: seq<string>, c: char)
    requires |parts| >= 1
    requires forall i :: 0 <= i < |parts| ==> c !in parts[i]
    ensures Split(Join(parts, c), c) == parts
    decreases |parts|, |parts[0]|
  {
    if |parts[0]| > 0 {
      var p0 := parts[0];
      var tailParts := [p0[1..]] + parts[1..];
      assert tailParts[0] == p0[1..];
      SplitJoin(tailParts, c);
      if |parts| == 1 {
        assert Join(parts, c) == p0;
        assert Join(tailParts, c) == p0[1..];
      } else {
        assert tailParts[1..] == parts[1..];
        assert Join(tailParts, c) == p0[1..] + [c] + Join(parts[1..], c);
        assert Join(parts, c) == [p0[0]] + Join(tailParts, c);
      }
      var j := Join(parts, c);
      assert j == [p0[0]] + Join(tailParts, c);
      assert j[0] == p0[0] && p0[0] != c;
      assert j[1..] == Join(tailParts, c);
      assert Split(j, c) == [[p0[0]] + tailParts[0]] + tailParts[1..];
      assert [p0[0]] + p0[1..] == p0;
      assert [p0] + parts[1..] == parts;
    } else if |parts| > 1 {
      SplitJoin(parts[1..], c);
      assert Join(parts, c) == [c] + Join(parts[1..], c);
      assert Join(parts, c)[1..] == Join(parts[1..], c);
    }
  }

  lemma {:induction false} CountConcat(a: string, b: string, c: char)
    ensures Count(a + b, c) == Count(a, c) + Count(b, c)
    decreases |a|
  {
    if |a| == 0 {
      assert a + b == b;
    } else {
      CountConcat(a[1..], b, c);
      assert (a + b)[0] == a[0];
      assert (a + b)[1..] == a[1..] + b;
    }
  }

  lemma {:induction false} CountPositive(s: string, c: char)
    requires c in s
    ensures Count(s, c) >= 1
    decreases |s|
  {
    if s[0] != c {
      var k :| 0 <= k < |s| && s[k] == c;
      assert s[1..][k - 1] == c;
      CountPositive(s[1..], c);
    }
  }

  /** A join of n pieces holds at least n - 1 separators. */
  lemma {:induction false} JoinCountFloor(parts: seq<string>, c: char)
    requires |parts| >= 1
    ensures Count(Join(parts, c), c) >= |parts| - 1
    decreases |parts|
  {
    if |parts| > 1 {
      JoinCountFloor(parts[1..], c);
      CountConcat(parts[0] + [c], Join(parts[1..], c), c);
      CountConcat(parts[0], [c], c);
    }
  }

  /** A join of n pieces one of which holds the separator has at least n
      separators. */
  lemma {:induction false} JoinCountSeparator(parts: seq<string>, c: char, i: int)
    requires 0 <= i < |parts|
    ensures c in parts[i] ==> Count(Join(parts, c), c) >= |parts|
    decreases |parts|
  {
    if c in parts[i] {
      if |parts| == 1 {
        CountPositive(parts[0], c);
      } else {
        CountConcat(parts[0] + [c], Join(parts[1..], c), c);
        CountConcat(parts[0], [c], c);
        if i == 0 {
          CountPositive(parts[0], c);
          JoinCountFloor(parts[1..], c);
        } else {
          assert parts[1..][i - 1] == parts[i];
          JoinCountSeparator(parts[1..], c, i - 1);
        }
      }
    }
  }
}
