/**
 * The identity the agent logs in with: the machine's hostname, cut down to
 * its first `.`-separated label unless the full hostname is wanted
 * (main.go, function `init`).
 */
module Hostname {

  /** The label separator of a hostname. */
  const Dot: char := '.'

  /**
   * Go's `strings.Split(s, sep)` for a one-character separator: the pieces
   * between separators, left to right. There is always at least one piece
   * (the empty string gives `[""]`) and no piece contains the separator.
   */
  function Split(s: string, sep: char): (parts: seq<string>)
    ensures |parts| >= 1
    ensures forall i :: 0 <= i < |parts| ==> sep !in parts[i]
    decreases |s|
  {
    if s == [] then [""]
    else
      var rest := Split(s[1..], sep);
      if s[0] == sep then [""] + rest
      else [[s[0]] + rest[0]] + rest[1..]
  }

  /** Go's `strings.Join(parts, sep)`, the inverse of `Split`. */
  function Join(parts: seq<string>, sep: char): (joined: string)
    requires |parts| >= 1
  {
    if |parts| == 1 then parts[0]
    else parts[0] + [sep] + Join(parts[1..], sep)
  }

  /**
   * Reference definition of the first label: the longest prefix free of the
   * separator. It is a prefix, holds no separator, and either is all of `s`
   * or is followed by a separator in `s`.
   */
  function FirstLabel(s: string, sep: char): (p: string)
    ensures p <= s
    ensures sep !in p
    ensures |p| == |s| || s[|p|] == sep
    decreases |s|
  {
    if s == [] || s[0] == sep then []
    else [s[0]] + FirstLabel(s[1..], sep)
  }

  /**
   * The identity computed once at start-up: `strings.Split(hostname, ".")`,
   * and the first piece when truncation is asked for and there is more than
   * one piece; the hostname unchanged otherwise.
   */
  function Identity(hostname: string, useFullHostname: bool): (id: string)
    ensures id <= hostname
  {
    SplitHead(hostname, Dot);
    var parts := Split(hostname, Dot);
    if !useFullHostname && |parts| > 1 then parts[0] else hostname
  }

  /** Splitting and joining again gives back the original string. */
  lemma {:induction false} JoinSplit(s: string, sep: char)
    ensures Join(Split(s, sep), sep) == s
    decreases |s|
  {
    if s != [] {
      var rest := Split(s[1..], sep);
      JoinSplit(s[1..], sep);
      if s[0] == sep {
        assert ([""] + rest)[1..] == rest;
      } else if |rest| > 1 {
        var parts := [[s[0]] + rest[0]] + rest[1..];
        assert parts[1..] == rest[1..];
        assert Join(rest, sep) == rest[0] + [sep] + Join(rest[1..], sep);
        assert s == [s[0]] + s[1..];
      } else {
        assert s == [s[0]] + s[1..];
      }
    }
  }

  /** A string without the separator splits into itself alone. */
  lemma {:induction false} SplitSingle(s: string, sep: char)
    requires sep !in s
    ensures Split(s, sep) == [s]
    decreases |s|
  {
    if s != [] {
      assert sep !in s[1..] by {
        forall k | 0 <= k < |s[1..]| ensures s[1..][k] != sep { assert s[1..][k] == s[k + 1]; }
      }
      SplitSingle(s[1..], sep);
      assert s == [s[0]] + s[1..];
    }
  }

  /** Splitting `p + sep + t` for a separator-free `p` puts `p` in front of the pieces of `t`. */
  lemma {:induction false} SplitAfterPiece(p: string, sep: char, t: string)
    requires sep !in p
    ensures Split(p + [sep] + t, sep) == [p] + Split(t, sep)
    decreases |p|
  {
    var s := p + [sep] + t;
    if p == [] {
      assert s[0] == sep && s[1..] == t;
    } else {
      assert s[0] == p[0] && s[1..] == p[1..] + [sep] + t;
      assert sep !in p[1..] by {
        forall k | 0 <= k < |p[1..]| ensures p[1..][k] != sep { assert p[1..][k] == p[k + 1]; }
      }
      SplitAfterPiece(p[1..], sep, t);
      assert p == [p[0]] + p[1..];
    }
  }

  /** Joining separator-free pieces and splitting again gives back the pieces. */
  lemma {:induction false} SplitJoin(parts: seq<string>, sep: char)
    requires |parts| >= 1
    requires forall i :: 0 <= i < |parts| ==> sep !in parts[i]
    ensures Split(Join(parts, sep), sep) == parts
    decreases |parts|
  {
    if |parts| == 1 {
      SplitSingle(parts[0], sep);
    } else {
      SplitJoin(parts[1..], sep);
      SplitAfterPiece(parts[0], sep, Join(parts[1..], sep));
      assert parts == [parts[0]] + parts[1..];
    }
  }

  /** There is more than one piece exactly when the separator occurs. */
  lemma {:induction false} SplitMoreThanOne(s: string, sep: char)
    ensures |Split(s, sep)| > 1 <==> sep in s
    decreases |s|
  {
    if s != [] {
      SplitMoreThanOne(s[1..], sep);
      assert s == [s[0]] + s[1..];
    }
  }

  /** The first piece of a split is the first label. */
  lemma {:induction false} SplitHead(s: string, sep: char)
    ensures Split(s, sep)[0] == FirstLabel(s, sep)
    decreases |s|
  {
    if s != [] && s[0] != sep {
      SplitHead(s[1..], sep);
    }
  }

  /** The three properties of `FirstLabel` determine it. */
  lemma FirstLabelUnique(s: string, sep: char, p: string)
    requires p <= s
    requires sep !in p
    requires |p| == |s| || s[|p|] == sep
    ensures p == FirstLabel(s, sep)
  {
  }

  /**
   * With truncation asked for and a `.` in the hostname, the identity is the
   * text before the first `.`: a proper prefix of the hostname, free of `.`,
   * followed in the hostname by a `.`.
   */
  lemma IdentityTruncates(hostname: string, useFullHostname: bool)
    requires !useFullHostname && Dot in hostname
    ensures var id := Identity(hostname, useFullHostname);
      id == FirstLabel(hostname, Dot) && Dot !in id && id < hostname && hostname[|id|] == Dot
  {
  }

  /** With the full hostname asked for, or no `.` in it, the identity is the hostname unchanged. */
  lemma IdentityKeeps(hostname: string, useFullHostname: bool)
    requires useFullHostname || Dot !in hostname
    ensures Identity(hostname, useFullHostname) == hostname
  {
    SplitMoreThanOne(hostname, Dot);
  }

  /** The identity is `.`-free exactly when the hostname is, or truncation was asked for. */
  lemma IdentityDotFree(hostname: string, useFullHostname: bool)
    ensures Dot !in Identity(hostname, useFullHostname) <==> (!useFullHostname || Dot !in hostname)
  {
    if !useFullHostname && Dot in hostname {
      IdentityTruncates(hostname, useFullHostname);
    } else {
      IdentityKeeps(hostname, useFullHostname);
    }
  }

  /** The identity is always a prefix of the hostname, and computing it twice changes nothing. */
  lemma IdentityIdempotent(hostname: string, useFullHostname: bool)
    ensures Identity(hostname, useFullHostname) <= hostname
    ensures Identity(Identity(hostname, useFullHostname), useFullHostname) == Identity(hostname, useFullHostname)
  {
    var id := Identity(hostname, useFullHostname);
    if !useFullHostname && Dot in hostname {
      IdentityTruncates(hostname, useFullHostname);
      IdentityKeeps(id, useFullHostname);
    } else {
      IdentityKeeps(hostname, useFullHostname);
    }
  }

  /**
   * A hostname made of a first label and a domain (say `node1` and
   * `cluster.example.com`) is cut to that label, and kept whole when the
   * full hostname is asked for.
   */
  lemma IdentityOfLabeled(first: string, domain: string)
    requires Dot !in first
    ensures Identity(first + [Dot] + domain, false) == first
    ensures Identity(first + [Dot] + domain, true) == first + [Dot] + domain
  {
    SplitAfterPiece(first, Dot, domain);
  }
}
