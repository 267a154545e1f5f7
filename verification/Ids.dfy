/** Identifiers (src/ids.rs) and the key order in which a `BTreeMap` visits them. */
module Ids {
  import opened Prelude

  predicate IdChar(c: char) {
    'a' <= c <= 'z' || 'A' <= c <= 'Z' || '0' <= c <= '9' || c == '-' || c == '_'
  }

  predicate ValidId(s: string) {
    s != "" && forall i | 0 <= i < |s| :: IdChar(s[i])
  }

  /**
   * The string an id wraps. `NewId` is the only way the source makes one, so every id it handles is
   * valid; what is proved of maps keyed by ids does not need that, and `ValidId` is required or
   * concluded where it does matter.
   */
  type Id = string

  function NewId(s: string): (r: Result<Id>)
    ensures r.Ok? <==> ValidId(s)
    ensures r.Ok? ==> r.value == s
    ensures r.Err? ==> r.error == InvalidInput
  {
    if ValidId(s) then Ok(s) else Err(InvalidInput)
  }

  /**
   * In ASCII codes: an id is accepted exactly when it is nonempty and holds only 0-9, A-Z, a-z, `-` and
   * `_`. So an accepted id holds no separator and no dot and is one component of a path, none of `.`
   * and `..`.
   */
  lemma NewIdMeaning(s: string)
    ensures NewId(s).Ok? <==> s != "" && forall i | 0 <= i < |s| ::
      var code := s[i] as int; 48 <= code < 58 || 65 <= code < 91 || 97 <= code < 123 || code == 45 || code == 95
    ensures NewId(s).Ok? ==> '/' !in s && '.' !in s && '\\' !in s && '\t' !in s && ' ' !in s && '\0' !in s
  {
  }

  /** The strict lexicographic order of `String`. */
  predicate Before(a: string, b: string) {
    if b == "" then false
    else if a == "" then true
    else if a[0] != b[0] then a[0] < b[0]
    else Before(a[1..], b[1..])
  }

  /** The strings agree on their first `k` characters; there `a` ends, or has the smaller character. */
  ghost predicate LessAt(a: string, b: string, k: nat) {
    k <= |a| && k < |b| && a[..k] == b[..k] && (k < |a| ==> a[k] < b[k])
  }

  /** One string is before another exactly when it ends, or is smaller, where they first differ. */
  lemma {:induction false} BeforeMeaning(a: string, b: string)
    ensures Before(a, b) <==> exists k: nat :: LessAt(a, b, k)
  {
    if b == "" {
    } else if a == "" || a[0] != b[0] {
      forall k: nat | k > 0 ensures !LessAt(a, b, k) {
        assert k <= |a| && k <= |b| && a != "" ==> a[..k][0] == a[0] && b[..k][0] == b[0];
      }
      assert LessAt(a, b, 0) <==> Before(a, b);
    } else {
      BeforeMeaning(a[1..], b[1..]);
      if k: nat :| LessAt(a, b, k) { LessAtRest(a, b, k); }
      if k: nat :| LessAt(a[1..], b[1..], k) { LessAtRest(a, b, k + 1); }
    }
  }

  lemma LessAtRest(a: string, b: string, k: nat)
    requires a != "" && b != "" && a[0] == b[0]
    ensures LessAt(a, b, k) <==> k > 0 && LessAt(a[1..], b[1..], k - 1)
  {
    if 0 < k <= |a| && k < |b| {
      assert a[..k] == [a[0]] + a[1..][..k - 1] && b[..k] == [b[0]] + b[1..][..k - 1];
      assert a[1..][..k - 1] == a[..k][1..] && b[1..][..k - 1] == b[..k][1..];
    }
  }

  lemma {:induction false} BeforeIsTotal(a: string, b: string)
    ensures Before(a, b) || Before(b, a) || a == b
    ensures !(Before(a, b) && Before(b, a))
    ensures !Before(a, a)
  {
    if a != "" {
      BeforeIsTotal(a[1..], a[1..]);
      if b != "" && a[0] == b[0] {
        BeforeIsTotal(a[1..], b[1..]);
        assert a == [a[0]] + a[1..] && b == [b[0]] + b[1..];
      }
    }
  }

  lemma {:induction false} BeforeIsTransitive(a: string, b: string, c: string)
    requires Before(a, b) && Before(b, c)
    ensures Before(a, c)
  {
    if a != "" && a[0] == b[0] == c[0] {
      BeforeIsTransitive(a[1..], b[1..], c[1..]);
    }
  }

  ghost predicate Ascending(s: seq<Id>) {
    forall i, j | 0 <= i < j < |s| :: Before(s[i], s[j])
  }

  predicate IsLeast(least: Id, s: set<Id>) {
    least in s && forall x | x in s && x != least :: Before(least, x)
  }

  lemma {:induction false} LeastExists(s: set<Id>)
    requires s != {}
    ensures exists least :: IsLeast(least, s)
    decreases |s|
  {
    var some :| some in s;
    var rest := s - {some};
    if rest == {} {
      assert s == {some};
      assert IsLeast(some, s);
    } else {
      LeastExists(rest);
      var l :| IsLeast(l, rest);
      BeforeIsTotal(some, l);
      if Before(some, l) {
        forall x | x in s && x != some ensures Before(some, x) {
          if x != l { BeforeIsTransitive(some, l, x); }
        }
        assert IsLeast(some, s);
      } else {
        assert IsLeast(l, s);
      }
    }
  }

  lemma LeastIsUnique(s: set<Id>)
    ensures forall x, y | IsLeast(x, s) && IsLeast(y, s) :: x == y
  {
    forall x, y | IsLeast(x, s) && IsLeast(y, s) ensures x == y {
      BeforeIsTotal(x, y);
    }
  }

  /** The least key of a set, the one a `BTreeMap` iterator yields first. */
  function Least(s: set<Id>): (least: Id)
    requires s != {}
    ensures IsLeast(least, s)
  {
    LeastExists(s);
    LeastIsUnique(s);
    var least :| least in s && IsLeast(least, s);
    least
  }

  /** The keys in iteration order. */
  function SortedKeys(s: set<Id>): (keys: seq<Id>)
    ensures Ascending(keys)
    ensures forall x :: x in keys <==> x in s
    ensures |keys| == |s|
  {
    if s == {} then []
    else
      var least := Least(s);
      [least] + SortedKeys(s - {least})
  }

  lemma SubsetIsSmaller(a: set<Id>, b: set<Id>)
    requires a <= b
    ensures |a| <= |b|
  {
    assert b == a + (b - a);
  }

  lemma AscendingIsDistinct(s: seq<Id>, i: nat, j: nat)
    requires Ascending(s) && i < |s| && j < |s| && s[i] == s[j]
    ensures i == j
  {
    BeforeIsTotal(s[i], s[i]);
  }
}
