/** What several modules share. */
module Basics {

  datatype Option<+T> = None | Some(value: T)

  /** What 32-bit two's complement leaves of a number. */
  function ToInt32(x: int): int {
    (x + 0x8000_0000) % 0x1_0000_0000 - 0x8000_0000
  }

  lemma Assoc<T>(a: seq<T>, b: seq<T>, c: seq<T>)
    ensures (a + b) + c == a + (b + c)
  {
  }

  /** Neighbours of the sequence are related. */
  ghost predicate Steps<T(!new)>(ps: seq<T>, next: iset<(T, T)>) {
    forall i :: 0 <= i < |ps| - 1 ==> (ps[i], ps[i + 1]) in next
  }

  ghost predicate Closed<T(!new)>(good: iset<T>, next: iset<(T, T)>) {
    forall x, y :: (x, y) in next && x in good ==> y in good
  }

  /** What every step keeps holds at the end if it holds at the start. */
  lemma {:induction false} KeptAlong<T(!new)>(ps: seq<T>, next: iset<(T, T)>, good: iset<T>)
    requires ps != [] && ps[0] in good && Steps(ps, next) && Closed(good, next)
    ensures ps[|ps| - 1] in good
    decreases |ps|
  {
    if |ps| > 1 {
      var n := |ps| - 1;
      KeptAlong(ps[..n], next, good);
      assert (ps[n - 1], ps[n - 1 + 1]) in next;
    }
  }

  lemma StepsCons<T(!new)>(x: T, ps: seq<T>, next: iset<(T, T)>)
    requires ps != [] && Steps(ps, next) && (x, ps[0]) in next
    ensures Steps([x] + ps, next)
  {
    var all := [x] + ps;
    forall i | 0 <= i < |all| - 1
      ensures (all[i], all[i + 1]) in next
    {
      if i > 0 {
        assert (ps[i - 1], ps[i - 1 + 1]) in next;
      }
    }
  }
}
