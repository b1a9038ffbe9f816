/** What a retry loop leaves behind: the library calls it made, each tagged
    with the attempt it belongs to, and the `time.sleep` calls between
    attempts. */
module Trace {

  datatype Event<C> = Call(attempt: nat, call: C) | Sleep(seconds: nat)

  /** How many `time.sleep` calls the trace holds. */
  function Sleeps<C>(t: seq<Event<C>>): (n: nat)
    ensures n <= |t|
    ensures n == 0 <==> forall i :: 0 <= i < |t| ==> t[i].Call?
  {
    if t == [] then 0 else (if t[0].Sleep? then 1 else 0) + Sleeps(t[1..])
  }

  /** How many calls of kind `c` the trace holds. */
  function Calls<C(==)>(t: seq<Event<C>>, c: C): (n: nat)
    ensures n <= |t|
    ensures n == 0 <==> forall i :: 0 <= i < |t| ==> !(t[i].Call? && t[i].call == c)
  {
    if t == [] then 0 else (if t[0].Call? && t[0].call == c then 1 else 0) + Calls(t[1..], c)
  }

  lemma {:induction false} SleepsAppend<C>(a: seq<Event<C>>, b: seq<Event<C>>)
    ensures Sleeps(a + b) == Sleeps(a) + Sleeps(b)
  {
    if a == [] {
      assert a + b == b;
    } else {
      assert (a + b)[1..] == a[1..] + b;
      SleepsAppend(a[1..], b);
    }
  }

  lemma {:induction false} CallsAppend<C>(a: seq<Event<C>>, b: seq<Event<C>>, c: C)
    ensures Calls(a + b, c) == Calls(a, c) + Calls(b, c)
  {
    if a == [] {
      assert a + b == b;
    } else {
      assert (a + b)[1..] == a[1..] + b;
      CallsAppend(a[1..], b, c);
    }
  }
}
