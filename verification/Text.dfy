/** The stock option type. */
module Wrappers {
  datatype Option<+T> = None | Some(value: T)
}

/** A fact about concatenation that the verifier does not see by itself. */
module Sequences {
  lemma Assoc<T>(a: seq<T>, b: seq<T>, c: seq<T>)
    ensures (a + b) + c == a + (b + c)
  {
  }

  /** What is added behind a pair belongs to its second half. */
  lemma Nested<T>(a: seq<T>, b: seq<T>, c: seq<T>, d: seq<T>)
    ensures a + (b + c) + d == a + (b + (c + d))
  {
    Assoc(a, b + c, d);
    Assoc(b, c, d);
  }
}

/** Octet strings and the first-occurrence search the C++ code gets from `std::search` and
    `std::string::find`. An octet is a `char`; octets 0x80..0xFF are `'\U{0080}'..'\U{00FF}'`. */
module Text {
  import opened Wrappers

  const CRLF := "\r\n"

  predicate Occurs(s: string, p: string, i: nat) {
    i + |p| <= |s| && s[i..i + |p|] == p
  }

  /** Where `p` first occurs in `s`. */
  function Find(s: string, p: string): (r: Option<nat>)
    ensures r.Some? ==> Occurs(s, p, r.value) && forall j :: 0 <= j < r.value ==> !Occurs(s, p, j)
    ensures r.None? ==> forall j: nat :: !Occurs(s, p, j)
    decreases |s|
  {
    if |s| < |p| then None
    else if s[..|p|] == p then Some(0)
    else
      assert forall j: nat :: j > 0 ==> Occurs(s, p, j) == Occurs(s[1..], p, j - 1) by { OccursInTail(s, p); }
      match Find(s[1..], p)
      case None => None
      case Some(i) => Some(i + 1)
  }

  lemma OccursInTail(s: string, p: string)
    requires s != []
    ensures forall j: nat :: j > 0 ==> Occurs(s, p, j) == Occurs(s[1..], p, j - 1)
  {
    forall j: nat | j > 0 ensures Occurs(s, p, j) == Occurs(s[1..], p, j - 1) {
      if j + |p| <= |s| {
        assert s[1..][j - 1..j - 1 + |p|] == s[j..j + |p|];
      }
    }
  }

  /** A string is what stands before the first occurrence, the occurrence, and what is behind it. */
  lemma Found(s: string, p: string)
    requires Find(s, p).Some?
    ensures var i := Find(s, p).value; s == s[..i] + (p + s[i + |p|..])
  {
    var i := Find(s, p).value;
    assert s[i..i + |p|] == p;
    Rejoined(s[i..], |p|);
    Rejoined(s, i);
  }

  lemma Rejoined(s: string, k: nat)
    requires k <= |s|
    ensures s[..k] + s[k..] == s
  {
  }

  /** The contract of `Find` determines its result. */
  lemma FindIs(s: string, p: string, i: nat)
    requires Occurs(s, p, i)
    requires forall j :: 0 <= j < i ==> !Occurs(s, p, j)
    ensures Find(s, p) == Some(i)
  {
  }

  /** An occurrence that lies inside `s` survives, and stays first, when octets are appended. */
  lemma FindExtend(s: string, p: string, t: string)
    requires Find(s, p).Some?
    ensures Find(s + t, p) == Find(s, p)
  {
    var i := Find(s, p).value;
    assert (s + t)[i..i + |p|] == s[i..i + |p|];
    forall j | 0 <= j < i ensures !Occurs(s + t, p, j) {
      assert (s + t)[j..j + |p|] == s[j..j + |p|];
      assert !Occurs(s, p, j);
    }
    FindIs(s + t, p, i);
  }

  lemma OccursBehind(s: string, p: string, k: nat, j: nat)
    requires k <= |s|
    ensures Occurs(s, p, k + j) <==> Occurs(s[k..], p, j)
  {
    if k + j + |p| <= |s| {
      assert s[k..][j..j + |p|] == s[k + j..k + j + |p|];
    }
  }

  /** Nothing occurs in the first `k` positions, so the search may start behind them. */
  lemma FindSkip(s: string, p: string, k: nat)
    requires k <= |s|
    requires forall j :: 0 <= j < k ==> !Occurs(s, p, j)
    requires Find(s[k..], p).Some?
    ensures Find(s, p) == Some(k + Find(s[k..], p).value)
  {
    var i := Find(s[k..], p).value;
    OccursBehind(s, p, k, i);
    NoneBefore(s, p, k, i);
    FindIs(s, p, k + i);
  }

  lemma NoneBefore(s: string, p: string, k: nat, i: nat)
    requires k <= |s|
    requires forall j :: 0 <= j < k ==> !Occurs(s, p, j)
    requires forall j :: 0 <= j < i ==> !Occurs(s[k..], p, j)
    ensures forall j :: 0 <= j < k + i ==> !Occurs(s, p, j)
  {
    forall j | k <= j < k + i ensures !Occurs(s, p, j) {
      OccursBehind(s, p, k, j - k);
    }
  }

  lemma OccursAt(s: string, p: string, i: nat, j: nat)
    requires Occurs(s, p, i) && j < |p|
    ensures s[i + j] == p[j]
  {
    assert s[i + j] == s[i..i + |p|][j];
  }

  /** A part of a part. */
  lemma OccursInside(s: string, p: string, i: nat, q: string, k: nat)
    requires Occurs(s, p, i) && Occurs(p, q, k)
    ensures Occurs(s, q, i + k)
  {
    forall j | 0 <= j < |q| ensures s[i + k + j] == q[j] {
      OccursAt(s, p, i, k + j);
      OccursAt(p, q, k, j);
    }
  }

  /** Cutting a concatenation where it was joined. */
  lemma TakeDrop(a: string, b: string)
    ensures (a + b)[..|a|] == a && (a + b)[|a|..] == b
  {
  }

  /** Appending does not change what is cut off in front. */
  lemma CutAppended(s: string, t: string, k: nat)
    requires k <= |s|
    ensures (s + t)[..k] == s[..k] && (s + t)[k..] == s[k..] + t
  {
  }

  /** The concatenation of a list of strings. */
  function Flatten(ss: seq<string>): string {
    if ss == [] then "" else ss[0] + Flatten(ss[1..])
  }

  lemma {:induction false} FlattenAppend(ss: seq<string>, tt: seq<string>)
    ensures Flatten(ss + tt) == Flatten(ss) + Flatten(tt)
  {
    if ss == [] {
      assert ss + tt == tt;
    } else {
      assert (ss + tt)[1..] == ss[1..] + tt;
      FlattenAppend(ss[1..], tt);
    }
  }
}
