/**
 The fingerprint of a request: a digest of its document in hex. It is modelled by what the proofs need of such a
 digest: a text without a colon from which operation, scope and payload can be read back.
 */
module Fingerprints {
  import opened Types

  function EscapedChar(c: char): string {
    if c == ':' then "~c" else if c == ',' then "~s" else if c == '~' then "~~" else [c]
  }

  function Escaped(s: string): string {
    if s == "" then "" else EscapedChar(s[0]) + Escaped(s[1..])
  }

  function Joined(parts: seq<string>): string {
    if parts == [] then "" else Escaped(parts[0]) + "," + Joined(parts[1..])
  }

  function ScopeParts(scope: seq<NotebookScope>): seq<string> {
    if scope == [] then []
    else [scope[0].notebookId, scope[0].contentRevision, scope[0].indexSchemaVersion] + ScopeParts(scope[1..])
  }

  function Fingerprint(operation: string, scope: seq<NotebookScope>, payload: string): string {
    Joined([operation, payload] + ScopeParts(scope))
  }

  ghost predicate NoColon(s: string) {
    forall i :: 0 <= i < |s| ==> s[i] != ':'
  }

  lemma {:induction false} EscapedHasNoColon(s: string)
    ensures NoColon(Escaped(s))
  {
    if s != "" {
      EscapedHasNoColon(s[1..]);
    }
  }

  lemma {:induction false} JoinedHasNoColon(parts: seq<string>)
    ensures NoColon(Joined(parts))
  {
    if parts != [] {
      EscapedHasNoColon(parts[0]);
      JoinedHasNoColon(parts[1..]);
    }
  }

  lemma {:induction false} NoColonInside(operation: string, scope: seq<NotebookScope>, payload: string)
    ensures NoColon(Fingerprint(operation, scope, payload))
  {
    JoinedHasNoColon([operation, payload] + ScopeParts(scope));
  }

  /** What follows the first separator is not part of the escaped text. */
  lemma {:induction false} SplitAtSeparator(a: string, b: string, x: string, y: string)
    requires Escaped(a) + "," + x == Escaped(b) + "," + y
    ensures a == b && x == y
    decreases |a|
  {
    var s, t := Escaped(a) + "," + x, Escaped(b) + "," + y;
    if a == "" || b == "" {
      assert s[0] == t[0];
      assert s[1..] == t[1..];
    } else {
      var u, v := Escaped(a[1..]) + "," + x, Escaped(b[1..]) + "," + y;
      assert s == EscapedChar(a[0]) + u && t == EscapedChar(b[0]) + v;
      SameFirst(a[0], b[0], u, v);
      SplitAtSeparator(a[1..], b[1..], x, y);
    }
  }

  lemma SameFirst(c: char, d: char, u: string, v: string)
    requires EscapedChar(c) + u == EscapedChar(d) + v
    ensures c == d && u == v
  {
    var s, t := EscapedChar(c) + u, EscapedChar(d) + v;
    assert s[0] == t[0];
    assert |EscapedChar(c)| == 2 ==> s[1] == EscapedChar(c)[1];
    assert |EscapedChar(d)| == 2 ==> t[1] == EscapedChar(d)[1];
    assert u == s[|EscapedChar(c)|..] && v == t[|EscapedChar(d)|..];
  }

  lemma {:induction false} JoinedInjective(p: seq<string>, q: seq<string>)
    requires Joined(p) == Joined(q)
    ensures p == q
    decreases |p|
  {
    if p != [] && q != [] {
      SplitAtSeparator(p[0], q[0], Joined(p[1..]), Joined(q[1..]));
      JoinedInjective(p[1..], q[1..]);
      assert p == [p[0]] + p[1..] && q == [q[0]] + q[1..];
    }
  }

  lemma {:induction false} ScopePartsInjective(a: seq<NotebookScope>, b: seq<NotebookScope>)
    requires ScopeParts(a) == ScopeParts(b)
    ensures a == b
    decreases |a|
  {
    if a != [] && b != [] {
      var s, t := ScopeParts(a), ScopeParts(b);
      assert s[0] == t[0] && s[1] == t[1] && s[2] == t[2];
      assert s[3..] == ScopeParts(a[1..]) && t[3..] == ScopeParts(b[1..]);
      ScopePartsInjective(a[1..], b[1..]);
      assert a == [a[0]] + a[1..] && b == [b[0]] + b[1..];
    }
  }

  /** Equal fingerprints mean the same operation, scope and payload. */
  lemma {:induction false} FingerprintInjective(operation: string, scope: seq<NotebookScope>, payload: string,
                                                operation': string, scope': seq<NotebookScope>, payload': string)
    requires Fingerprint(operation, scope, payload) == Fingerprint(operation', scope', payload')
    ensures operation == operation' && scope == scope' && payload == payload'
  {
    var p, q := [operation, payload] + ScopeParts(scope), [operation', payload'] + ScopeParts(scope');
    JoinedInjective(p, q);
    assert p[0] == q[0] && p[1] == q[1] && p[2..] == ScopeParts(scope) && q[2..] == ScopeParts(scope');
    ScopePartsInjective(scope, scope');
  }
}
