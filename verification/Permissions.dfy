/** The wildcard permission matcher over dotted codes. */
module Permissions {
  import opened JsText

  const WILDCARD := "*"

  /** `r` is granted outright, by `*`, or by `p.*` for the part `p` of `r` before one of its dots. */
  ghost predicate Satisfies(granted: set<string>, required: string) {
    || "*" in granted
    || required in granted
    || exists j :: DotAt(required, j) && required[..j] + ".*" in granted
  }

  predicate DotAt(s: string, j: int) {
    0 <= j < |s| && s[j] == '.'
  }

  /** The first `k` parts, joined, are the text before the `k`-th dot. */
  lemma {:induction false} PartsArePrefix(s: string, k: nat)
    requires 1 <= k < |Split(s, '.')|
    ensures var p := Join(Split(s, '.')[..k], '.'); DotAt(s, |p|) && s[..|p|] == p
  {
    var parts := Split(s, '.');
    JoinSplit(s, '.');
    assert parts == parts[..k] + parts[k..];
    JoinConcat(parts[..k], parts[k..], '.');
  }

  /** Every dot ends such a prefix. */
  lemma {:induction false} PrefixIsParts(s: string, j: nat)
    requires DotAt(s, j)
    ensures var k := |Split(s[..j], '.')|; 1 <= k < |Split(s, '.')| && Join(Split(s, '.')[..k], '.') == s[..j]
  {
    assert s == s[..j] + ['.'] + s[j + 1..];
    SplitConcat(s[..j], s[j + 1..], '.');
    JoinSplit(s[..j], '.');
    assert Split(s, '.')[..|Split(s[..j], '.')|] == Split(s[..j], '.');
  }

  method PermissionSatisfies(granted: set<string>, required: string) returns (ok: bool)
    ensures ok <==> Satisfies(granted, required)
  {
    if WILDCARD in granted || required in granted {
      return true;
    }
    var parts := Split(required, '.');
    var i := |parts| - 1;
    while i >= 1
      invariant 0 <= i < |parts|
      invariant forall k :: i < k < |parts| ==> Join(parts[..k], '.') + ".*" !in granted
    {
      if Join(parts[..i], '.') + ".*" in granted {
        PartsArePrefix(required, i);
        return true;
      }
      i := i - 1;
    }
    forall j | DotAt(required, j)
      ensures required[..j] + ".*" !in granted
    {
      PrefixIsParts(required, j);
    }
    return false;
  }

  /** `p.*` covers exactly the codes that begin with `p.`: not `p` itself, nor a longer first word. */
  lemma WildcardMeaning(p: string, required: string)
    ensures Satisfies({p + ".*"}, required) <==> p + "." <= required
  {
    if Satisfies({p + ".*"}, required) {
      assert (p + ".*")[|p|] == '.';
      if required != p + ".*" {
        var j :| DotAt(required, j) && required[..j] + ".*" == p + ".*";
        assert |required[..j] + ".*"| == |p + ".*"|;
        assert required[..j] == (required[..j] + ".*")[..j] == (p + ".*")[..j] == p;
      }
    }
    if p + "." <= required {
      assert DotAt(required, |p|) by { assert required[|p|] == (p + ".")[|p|]; }
      assert required[..|p|] == (p + ".")[..|p|] == p;
    }
  }

  /** More grants never satisfy less. */
  lemma Monotone(granted: set<string>, more: set<string>, required: string)
    requires granted <= more && Satisfies(granted, required)
    ensures Satisfies(more, required)
  {
  }

  /** A set satisfies what one of its codes satisfies. */
  lemma ByOneCode(granted: set<string>, required: string)
    ensures Satisfies(granted, required) <==> exists w :: w in granted && Satisfies({w}, required)
  {
    if Satisfies(granted, required) {
      if WILDCARD in granted {
        assert Satisfies({WILDCARD}, required);
      } else if required in granted {
        assert Satisfies({required}, required);
      } else {
        var j :| DotAt(required, j) && required[..j] + ".*" in granted;
        assert Satisfies({required[..j] + ".*"}, required);
      }
    }
  }

  lemma SubsumedByOne(granted: set<string>, w: string, required: string)
    requires Satisfies(granted, w) && Satisfies({w}, required)
    ensures Satisfies(granted, required)
  {
    if WILDCARD !in granted && required != w && w != WILDCARD {
      var j :| DotAt(required, j) && required[..j] + ".*" == w;
      if w !in granted {
        var i :| DotAt(w, i) && w[..i] + ".*" in granted;
        assert i <= j;
        assert DotAt(required, i);
        assert required[..i] == w[..i];
      }
    }
  }

  /** Subsumption is transitive, wildcards in the middle included: grants that satisfy every code
      of `held` satisfy everything `held` does. */
  lemma Transitive(granted: set<string>, held: set<string>, required: string)
    requires forall w :: w in held ==> Satisfies(granted, w)
    requires Satisfies(held, required)
    ensures Satisfies(granted, required)
  {
    ByOneCode(held, required);
    var w :| w in held && Satisfies({w}, required);
    SubsumedByOne(granted, w, required);
  }
}
