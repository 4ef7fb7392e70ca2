/** What several modules need:

    - an optional value;
    - the larger of two numbers, a lower-case letter, and what counts as alphanumeric;
    - how sequences regroup;
    - what an expression sees of the names around it;
    - the stack of scopes that the visitors of the rewrites push and pop. */
module Common {

  datatype Option<T> = None | Some(value: T)

  function Max(a: nat, b: nat): nat { if a < b then b else a }

  function LowerChar(c: char): char { if 'A' <= c <= 'Z' then c - 'A' + 'a' else c }

  predicate IsAsciiAlphanumeric(c: char) { '0' <= c <= '9' || 'A' <= c <= 'Z' || 'a' <= c <= 'z' }

  lemma Regroup<T>(x: seq<T>, y: seq<T>, z: seq<T>)
    ensures x + y + z == x + (y + z)
  {
  }

  lemma Regroup4<T>(w: seq<T>, x: seq<T>, y: seq<T>, z: seq<T>)
    ensures w + x + y + z == w + (x + y + z)
  {
  }

  lemma NoPrefix<T>(x: seq<T>)
    ensures [] + x == x
  {
  }

  lemma ConsEqual<T>(x: T, xs: seq<T>, y: T, ys: seq<T>)
    ensures [x] + xs == [y] + ys <==> x == y && xs == ys
    ensures ([x] + xs)[0] == x && ([x] + xs)[1..] == xs
  {
    if [x] + xs == [y] + ys {
      assert ([x] + xs)[0] == ([y] + ys)[0];
      assert xs == ([x] + xs)[1..] == ([y] + ys)[1..] == ys;
    }
  }

  lemma SamePrefix<T>(x: seq<T>, y: seq<T>, z: seq<T>)
    ensures x + y == x + z <==> y == z
  {
    if x + y == x + z { assert y == (x + y)[|x|..] == (x + z)[|x|..] == z; }
  }

  lemma Solo<T>(x: T)
    ensures [x] + [] == [x] && [x][1..] == []
  {
  }

  // ------------------------------------------------------------------------------------------
  // The names that an expression sees
  // ------------------------------------------------------------------------------------------

  ghost function Restrict<V>(m: map<string, V>, names: set<string>): map<string, V> { map n | n in m && n in names :: m[n] }

  ghost predicate Agree<V>(a: map<string, V>, b: map<string, V>, names: set<string>) {
    forall n | n in names :: (n in a <==> n in b) && (n in a ==> a[n] == b[n])
  }

  lemma RestrictAgrees<V>(a: map<string, V>, b: map<string, V>, names: set<string>)
    requires Agree(a, b, names)
    ensures Restrict(a, names) == Restrict(b, names)
  {
  }

  // ------------------------------------------------------------------------------------------
  // The stack of scopes that the visitors push and pop
  // ------------------------------------------------------------------------------------------

  ghost function Shadowed(stack: seq<set<string>>): set<string> {
    if stack == [] then {} else Shadowed(stack[..|stack|-1]) + stack[|stack|-1]
  }

  lemma {:induction false} ShadowedHas(stack: seq<set<string>>, x: string)
    ensures x in Shadowed(stack) <==> exists i | 0 <= i < |stack| :: x in stack[i]
  {
    if stack != [] {
      var before := stack[..|stack|-1];
      ShadowedHas(before, x);
      if i :| 0 <= i < |stack| && x in stack[i] { assert i < |before| ==> before[i] == stack[i]; }
      if i :| 0 <= i < |before| && x in before[i] { assert stack[i] == before[i]; }
    }
  }

  lemma ShadowedPush(stack: seq<set<string>>, top: set<string>)
    ensures Shadowed(stack + [top]) == Shadowed(stack) + top && (stack + [top])[..|stack|] == stack
  {
    assert (stack + [top])[..|stack|] == stack;
  }
}
