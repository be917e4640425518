/**
 * Scripts: the outcomes an environment will produce, fixed in advance as a
 * sequence and consumed from the front. A used-up script keeps producing a
 * default, so an arbitrary script models an arbitrary environment.
 */
module Scripts {
  /** The head of a script, with `default` once the script is used up. */
  function Next<T>(script: seq<T>, default: T): T {
    if |script| == 0 then default else script[0]
  }

  /** A script with its head consumed. */
  function Drop<T>(script: seq<T>): seq<T> {
    if |script| == 0 then [] else script[1..]
  }

  /** A script with `n` heads consumed. */
  function DropN<T>(script: seq<T>, n: nat): (r: seq<T>)
    ensures n <= |script| ==> |r| == |script| - n
    ensures n >= |script| ==> r == []
    decreases n
  {
    if n == 0 then script else DropN(Drop(script), n - 1)
  }

  /** Consuming one more head after `n` is consuming `n + 1`. */
  lemma {:induction false} DropDropN<T>(script: seq<T>, n: nat)
    ensures Drop(DropN(script, n)) == DropN(script, n + 1)
    decreases n
  {
    if n > 0 {
      DropDropN(Drop(script), n - 1);
    }
  }

  /** Consuming `n` heads after one is consuming `n + 1`. */
  lemma DropNDrop<T>(script: seq<T>, n: nat)
    ensures DropN(Drop(script), n) == DropN(script, n + 1)
  {
  }

  /** Consuming `a` heads and then `b` is consuming `a + b`. */
  lemma {:induction false} DropNDropN<T>(script: seq<T>, a: nat, b: nat)
    ensures DropN(DropN(script, a), b) == DropN(script, a + b)
    decreases a
  {
    if a > 0 {
      DropNDropN(Drop(script), a - 1, b);
    }
  }

  /** The `i`-th entry of a script, reading past its end as `default`. */
  function At<T>(script: seq<T>, i: nat, default: T): (r: T)
    ensures i < |script| ==> r == script[i]
    ensures i >= |script| ==> r == default
    decreases i
  {
    if i == 0 then Next(script, default) else At(Drop(script), i - 1, default)
  }

  lemma AtDrop<T>(script: seq<T>, i: nat, default: T)
    ensures At(Drop(script), i, default) == At(script, i + 1, default)
    ensures At(script, 0, default) == Next(script, default)
  {
  }
}
