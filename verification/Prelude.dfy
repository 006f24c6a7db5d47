/** Small value types that every component shares. */
module Prelude {

  datatype Option<+T> = None | Some(value: T)

  datatype Result<+T, +E> = Ok(value: T) | Err(error: E)

  /** `dict.get`: the value under the key, or nothing. */
  function Lookup<K(==), V>(m: map<K, V>, k: K): Option<V> {
    if k in m then Some(m[k]) else None
  }

  predicate Distinct<T(==)>(s: seq<T>) {
    forall i, j :: 0 <= i < j < |s| ==> s[i] != s[j]
  }

  function ToSet<T(==)>(s: seq<T>): set<T> {
    set x | x in s
  }

  /** `str.isspace`. */
  predicate White(c: char) {
    var n := c as int;
    || 0x09 <= n <= 0x0d || 0x1c <= n <= 0x20 || n == 0x85 || n == 0xa0 || n == 0x1680
    || 0x2000 <= n <= 0x200a || n == 0x2028 || n == 0x2029 || n == 0x202f || n == 0x205f || n == 0x3000
  }

  /** `str.split(sep)`: empty parts are kept. */
  function Parts(t: string, sep: char): (parts: seq<string>)
    ensures parts != []
  {
    if t == "" then [""]
    else
      var rest := Parts(t[1..], sep);
      if t[0] == sep then [""] + rest else [[t[0]] + rest[0]] + rest[1..]
  }

  /** Slashes for backslashes. */
  function Slashed(s: string): (r: string)
    ensures |r| == |s| && '\\' !in r
    ensures forall i :: 0 <= i < |s| ==> r[i] == s[i] || (s[i] == '\\' && r[i] == '/')
  {
    seq(|s|, i requires 0 <= i < |s| => if s[i] == '\\' then '/' else s[i])
  }

  lemma ToSetSnoc<T>(s: seq<T>, x: T)
    ensures ToSet(s + [x]) == ToSet(s) + {x}
  {
  }

  lemma AddThenDrop<K, V>(m: map<K, V>, k: K, v: V)
    requires k !in m
    ensures m[k := v] - {k} == m
  {
  }

  lemma NoneMissing<T>(a: set<T>, b: set<T>)
    ensures a - b == {} <==> a <= b
  {
    if a - b == {} {
      forall x | x in a
        ensures x in b
      {
        assert x !in a - b;
      }
    }
  }

  /** Lists a set without repetition, in an order of its own: what is proved with it holds for every order. */
  method Enumerate<T(==)>(s: set<T>) returns (q: seq<T>)
    ensures Distinct(q) && ToSet(q) == s
  {
    q := [];
    var rest := s;
    while rest != {}
      invariant Distinct(q) && rest <= s
      invariant forall x :: x in q <==> x in s && x !in rest
      decreases |rest|
    {
      var x :| x in rest;
      q, rest := q + [x], rest - {x};
    }
  }

  /** A name nobody uses yet: the first choice, made longer as often as it takes. */
  method FreshName(names: set<string>, first: string) returns (name: string)
    ensures name !in names
  {
    name := first;
    var longer := names;
    while name in longer
      invariant forall n :: n in names && n !in longer ==> |n| < |name|
      decreases |longer|
    {
      longer := longer - {name};
      name := name + "_";
    }
  }

  /** The order of texts: by their first different character, and beginnings first. */
  predicate Less(a: string, b: string) {
    b != "" && (a == "" || a[0] < b[0] || (a[0] == b[0] && Less(a[1..], b[1..])))
  }

  predicate Sorted(q: seq<string>) {
    forall i, j :: 0 <= i < j < |q| ==> Less(q[i], q[j])
  }

  lemma {:induction false} LessTotal(a: string, b: string)
    ensures a != b ==> Less(a, b) || Less(b, a)
    ensures !(Less(a, b) && Less(b, a))
  {
    if a != "" && b != "" {
      LessTotal(a[1..], b[1..]);
      assert a == [a[0]] + a[1..] && b == [b[0]] + b[1..];
    }
  }

  lemma {:induction false} LessTransitive(a: string, b: string, c: string)
    requires Less(a, b) && Less(b, c)
    ensures Less(a, c)
  {
    if a != "" && a[0] == b[0] == c[0] {
      LessTransitive(a[1..], b[1..], c[1..]);
    }
  }

  lemma {:induction false} BeginningIsLess(a: string, b: string)
    requires a < b
    ensures Less(a, b)
  {
    if a != "" {
      assert a[0] == b[0];
      BeginningIsLess(a[1..], b[1..]);
    }
  }

  method Least(s: set<string>) returns (m: string)
    requires s != {}
    ensures m in s && forall x :: x in s ==> x == m || Less(m, x)
  {
    m :| m in s;
    var rest := s - {m};
    while rest != {}
      invariant m in s && rest <= s
      invariant forall x :: x in s && x !in rest ==> x == m || Less(m, x)
      decreases |rest|
    {
      var y :| y in rest;
      LessTotal(y, m);
      if Less(y, m) {
        forall x | x in s && Less(m, x)
          ensures Less(y, x)
        {
          LessTransitive(y, m, x);
        }
        m := y;
      }
      rest := rest - {y};
    }
  }

  /** `sorted` */
  method SortedTexts(s: set<string>) returns (q: seq<string>)
    ensures Sorted(q) && ToSet(q) == s
  {
    q := [];
    var rest := s;
    while rest != {}
      invariant Sorted(q) && rest <= s
      invariant forall x :: x in s <==> x in q || x in rest
      invariant forall i, x :: 0 <= i < |q| && x in rest ==> Less(q[i], x)
      invariant forall x :: x in q ==> x in s
      decreases |rest|
    {
      var m := Least(rest);
      q, rest := q + [m], rest - {m};
    }
  }
}
