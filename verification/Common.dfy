/** What the other modules share: optional values and the kernel's error numbers. */
module Common {

  datatype Option<T> = None | Some(value: T)

  const EIO: int := 5
  const EAGAIN: int := 11
  const ENOMEM: int := 12
  const EBUSY: int := 16
  const EINVAL: int := 22

  function Sum(lens: seq<nat>): nat {
    if lens == [] then 0 else Sum(lens[..|lens| - 1]) + lens[|lens| - 1]
  }

  lemma {:induction false} SumSnoc(lens: seq<nat>, i: nat)
    requires i < |lens|
    ensures Sum(lens[..i + 1]) == Sum(lens[..i]) + lens[i]
  {
    assert lens[..i + 1][..i] == lens[..i];
  }

  lemma {:induction false} SumGrows(lens: seq<nat>, i: nat)
    requires i <= |lens|
    ensures Sum(lens[..i]) <= Sum(lens)
    decreases |lens| - i
  {
    if i == |lens| {
      assert lens[..i] == lens;
    } else {
      SumSnoc(lens, i);
      SumGrows(lens, i + 1);
    }
  }

  lemma {:induction false} Multiple(n: int, d: int)
    requires n > 0
    ensures d >= 1 ==> n * d >= n
    ensures d <= -1 ==> n * d <= -n
  {
  }

  lemma {:induction false} Remainder(r: nat, k: nat, m: nat)
    requires r < m
    ensures (r + m * k) % m == r && (r + m * k) / m == k
  {
    var x := r + m * k;
    var d := x / m - k;
    assert m * d == r - x % m by {
      assert m * (x / m) == m * k + m * d by {
        assert x / m == k + d;
      }
    }
    Multiple(m, d);
  }
}
