/** Sequences of entries keyed by a file descriptor, and the order-preserving
    removal (`std::remove_if` followed by `erase`) that the run loop applies to
    its two parallel vectors. */
module FdSequences {

  /** The descriptors of the entries of `s`, position by position. */
  function Keys<T>(s: seq<T>, key: T -> int): seq<int>
  {
    seq(|s|, i requires 0 <= i < |s| => key(s[i]))
  }

  /** The entries of `s` whose descriptor is not `fd`, in their original order. */
  function Without<T>(s: seq<T>, key: T -> int, fd: int): seq<T>
  {
    if s == [] then []
    else
      var rest := Without(s[..|s| - 1], key, fd);
      if key(s[|s| - 1]) == fd then rest else rest + [s[|s| - 1]]
  }

  /** Removes every descriptor of `fds`, one after the other. */
  function WithoutAll<T>(s: seq<T>, key: T -> int, fds: seq<int>): seq<T>
  {
    if fds == [] then s
    else Without(WithoutAll(s, key, fds[..|fds| - 1]), key, fds[|fds| - 1])
  }

  /** After the removal no entry has descriptor `fd`, and every other entry is kept. */
  lemma {:induction false} WithoutMembers<T>(s: seq<T>, key: T -> int, fd: int, x: T)
    ensures x in Without(s, key, fd) <==> x in s && key(x) != fd
  {
    if s != [] {
      WithoutMembers(s[..|s| - 1], key, fd, x);
      assert s == s[..|s| - 1] + [s[|s| - 1]];
    }
  }

  /** The removal is a filter: it distributes over concatenation, so the kept
      entries stay in their original relative order. */
  lemma {:induction false} WithoutConcat<T>(a: seq<T>, b: seq<T>, key: T -> int, fd: int)
    ensures Without(a + b, key, fd) == Without(a, key, fd) + Without(b, key, fd)
    decreases |b|
  {
    if b == [] {
      assert a + b == a;
    } else {
      var b' := b[..|b| - 1];
      assert (a + b)[..|a + b| - 1] == a + b';
      WithoutConcat(a, b', key, fd);
    }
  }

  /** Removing a descriptor that no entry has changes nothing. */
  lemma {:induction false} WithoutAbsent<T>(s: seq<T>, key: T -> int, fd: int)
    requires forall i :: 0 <= i < |s| ==> key(s[i]) != fd
    ensures Without(s, key, fd) == s
  {
    if s != [] {
      WithoutAbsent(s[..|s| - 1], key, fd);
    }
  }

  /** The removal keeps exactly the entries whose descriptor differs: it is a
      sub-sequence of `s` of length `|s|` minus the number of entries with `fd`. */
  lemma {:induction false} WithoutCount<T>(s: seq<T>, key: T -> int, fd: int)
    ensures |Without(s, key, fd)| == |s| - Occurrences(Keys(s, key), fd)
  {
    if s != [] {
      var s' := s[..|s| - 1];
      WithoutCount(s', key, fd);
      assert Keys(s, key) == Keys(s', key) + [key(s[|s| - 1])];
      OccurrencesSnoc(Keys(s', key), key(s[|s| - 1]), fd);
    }
  }

  /** Number of positions of `fds` holding `fd`. */
  function Occurrences(fds: seq<int>, fd: int): nat
  {
    if fds == [] then 0
    else Occurrences(fds[..|fds| - 1], fd) + (if fds[|fds| - 1] == fd then 1 else 0)
  }

  lemma {:induction false} OccurrencesSnoc(fds: seq<int>, x: int, fd: int)
    ensures Occurrences(fds + [x], fd) == Occurrences(fds, fd) + (if x == fd then 1 else 0)
  {
    assert (fds + [x])[..|fds|] == fds;
  }

  /** Two sequences that agree descriptor by descriptor still agree after the
      same descriptor is removed from both. */
  lemma {:induction false} WithoutAgreement<T, U>(a: seq<T>, ka: T -> int, b: seq<U>, kb: U -> int, fd: int)
    requires Keys(a, ka) == Keys(b, kb)
    ensures Keys(Without(a, ka, fd), ka) == Keys(Without(b, kb, fd), kb)
  {
    assert |a| == |Keys(a, ka)| == |Keys(b, kb)| == |b|;
    if a != [] {
      var a', b' := a[..|a| - 1], b[..|b| - 1];
      assert Keys(a', ka) == Keys(a, ka)[..|a'|];
      assert Keys(b', kb) == Keys(b, kb)[..|b'|];
      WithoutAgreement(a', ka, b', kb, fd);
      assert ka(a[|a| - 1]) == Keys(a, ka)[|a| - 1] == kb(b[|b| - 1]);
      KeysSnoc(Without(a', ka, fd), a[|a| - 1], ka);
      KeysSnoc(Without(b', kb, fd), b[|b| - 1], kb);
    }
  }

  /** Sequences of equal length with the same descriptor at every position agree. */
  lemma {:induction false} SameKeys<T, U>(a: seq<T>, ka: T -> int, b: seq<U>, kb: U -> int)
    requires |a| == |b| && forall i :: 0 <= i < |a| ==> ka(a[i]) == kb(b[i])
    ensures Keys(a, ka) == Keys(b, kb)
  {
  }

  lemma {:induction false} KeysSnoc<T>(s: seq<T>, x: T, key: T -> int)
    ensures Keys(s + [x], key) == Keys(s, key) + [key(x)]
  {
  }

  lemma {:induction false} KeysConcat<T>(a: seq<T>, b: seq<T>, key: T -> int)
    ensures Keys(a + b, key) == Keys(a, key) + Keys(b, key)
  {
  }

  /** After removing a list of descriptors, an entry is kept exactly when it was
      there before and its descriptor is none of them. */
  lemma {:induction false} WithoutAllMembers<T>(s: seq<T>, key: T -> int, fds: seq<int>, x: T)
    ensures x in WithoutAll(s, key, fds) <==> x in s && key(x) !in fds
  {
    if fds != [] {
      var fds' := fds[..|fds| - 1];
      WithoutAllMembers(s, key, fds', x);
      WithoutMembers(WithoutAll(s, key, fds'), key, fds[|fds| - 1], x);
      assert fds == fds' + [fds[|fds| - 1]];
    }
  }

  /** Removing a list of descriptors distributes over concatenation. */
  lemma {:induction false} WithoutAllConcat<T>(a: seq<T>, b: seq<T>, key: T -> int, fds: seq<int>)
    ensures WithoutAll(a + b, key, fds) == WithoutAll(a, key, fds) + WithoutAll(b, key, fds)
  {
    if fds != [] {
      var fds' := fds[..|fds| - 1];
      WithoutAllConcat(a, b, key, fds');
      WithoutConcat(WithoutAll(a, key, fds'), WithoutAll(b, key, fds'), key, fds[|fds| - 1]);
    }
  }

  /** Agreement descriptor by descriptor survives removing a list of descriptors. */
  lemma {:induction false} WithoutAllAgreement<T, U>(a: seq<T>, ka: T -> int, b: seq<U>, kb: U -> int, fds: seq<int>)
    requires Keys(a, ka) == Keys(b, kb)
    ensures Keys(WithoutAll(a, ka, fds), ka) == Keys(WithoutAll(b, kb, fds), kb)
  {
    if fds != [] {
      var fds' := fds[..|fds| - 1];
      WithoutAllAgreement(a, ka, b, kb, fds');
      WithoutAgreement(WithoutAll(a, ka, fds'), ka, WithoutAll(b, kb, fds'), kb, fds[|fds| - 1]);
    }
  }
}
