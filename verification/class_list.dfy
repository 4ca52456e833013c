/**
 An element's class attribute, seen as its list of class tokens in document
 order, and the three ways script.js rewrites such a list: dropping every
 token that starts with one of a set of prefixes (`split` / `filter` /
 `join`), `classList.add` (append when absent) and `classList.remove`
 (drop every occurrence).
 */
module ClassList {

  /** JavaScript's `tok.startsWith(prefix)`. */
  predicate StartsWith(tok: string, prefix: string) {
    prefix <= tok
  }

  /** The token starts with at least one of `prefixes`. */
  predicate HasAnyPrefix(tok: string, prefixes: seq<string>) {
    exists i :: 0 <= i < |prefixes| && StartsWith(tok, prefixes[i])
  }

  /** `toks.filter(cls => !cls.startsWith(p1) && ... )`: keeps, in order, the tokens with none of the prefixes. */
  function Without(toks: seq<string>, prefixes: seq<string>): (r: seq<string>)
    ensures |r| <= |toks|
    ensures forall i :: 0 <= i < |r| ==> !HasAnyPrefix(r[i], prefixes)
    ensures (forall i :: 0 <= i < |toks| ==> !HasAnyPrefix(toks[i], prefixes)) ==> r == toks
  {
    if |toks| == 0 then []
    else if HasAnyPrefix(toks[0], prefixes) then Without(toks[1..], prefixes)
    else [toks[0]] + Without(toks[1..], prefixes)
  }

  /** A token survives the filter exactly when it was there and has none of the prefixes. */
  lemma {:induction false} WithoutMembership(toks: seq<string>, prefixes: seq<string>, t: string)
    ensures t in Without(toks, prefixes) <==> t in toks && !HasAnyPrefix(t, prefixes)
  {
    if |toks| > 0 {
      WithoutMembership(toks[1..], prefixes, t);
      assert t in toks <==> t == toks[0] || t in toks[1..];
    }
  }

  /** Filtering commutes with concatenation: together with the singleton case this pins down the order kept. */
  lemma {:induction false} WithoutAppend(a: seq<string>, b: seq<string>, prefixes: seq<string>)
    ensures Without(a + b, prefixes) == Without(a, prefixes) + Without(b, prefixes)
  {
    if |a| == 0 {
      assert a + b == b;
    } else {
      assert (a + b)[0] == a[0];
      assert (a + b)[1..] == a[1..] + b;
      WithoutAppend(a[1..], b, prefixes);
    }
  }

  /** Filtering a second time changes nothing. */
  lemma WithoutIdempotent(toks: seq<string>, prefixes: seq<string>)
    ensures Without(Without(toks, prefixes), prefixes) == Without(toks, prefixes)
  {
  }

  /** `classList.add(c)`: the token is appended unless it is already present. */
  function AddClass(toks: seq<string>, c: string): (r: seq<string>)
    ensures c in r
    ensures toks <= r
    ensures forall t :: t in r ==> t in toks || t == c
    ensures c in toks ==> r == toks
    ensures c !in toks ==> r == toks + [c]
  {
    if c in toks then toks else toks + [c]
  }

  /** A run of `classList.add` calls, in order. */
  function AddClasses(toks: seq<string>, cs: seq<string>): (r: seq<string>)
    ensures toks <= r
    ensures forall i :: 0 <= i < |cs| ==> cs[i] in r
    ensures forall t :: t in r ==> t in toks || t in cs
    ensures forall i :: |toks| <= i < |r| ==> r[i] in cs
    decreases |cs|
  {
    if |cs| == 0 then toks else AddClasses(AddClass(toks, cs[0]), cs[1..])
  }

  /** No two entries of the sequence are equal. */
  predicate Distinct(cs: seq<string>) {
    forall i, j :: 0 <= i < j < |cs| ==> cs[i] != cs[j]
  }

  /** Dropping the head keeps the entries distinct. */
  lemma DistinctTail(cs: seq<string>)
    requires |cs| > 0 && Distinct(cs)
    ensures Distinct(cs[1..])
    ensures cs[0] !in cs[1..]
  {
    var rest := cs[1..];
    forall i, j | 0 <= i < j < |rest|
      ensures rest[i] != rest[j]
    {
      assert rest[i] == cs[i + 1] && rest[j] == cs[j + 1];
    }
  }

  /** Adding classes none of which is present, and no two alike, appends them all in order. */
  lemma {:induction false} AddClassesFresh(toks: seq<string>, cs: seq<string>)
    requires Distinct(cs)
    requires forall i :: 0 <= i < |cs| ==> cs[i] !in toks
    ensures AddClasses(toks, cs) == toks + cs
    decreases |cs|
  {
    if |cs| > 0 {
      var next := toks + [cs[0]];
      var rest := cs[1..];
      assert AddClasses(toks, cs) == AddClasses(next, rest);
      DistinctTail(cs);
      forall i | 0 <= i < |rest|
        ensures rest[i] !in next
      {
        assert rest[i] == cs[i + 1];
      }
      AddClassesFresh(next, rest);
      assert next + rest == toks + cs;
    }
  }

  /** `classList.remove(c)`: every occurrence of the token goes, the rest stay in order. */
  function RemoveToken(toks: seq<string>, c: string): (r: seq<string>)
    ensures c !in r
    ensures forall t :: t != c ==> (t in r <==> t in toks)
    ensures c !in toks ==> r == toks
  {
    if |toks| == 0 then []
    else if toks[0] == c then RemoveToken(toks[1..], c)
    else [toks[0]] + RemoveToken(toks[1..], c)
  }

  /** Removal commutes with concatenation. */
  lemma {:induction false} RemoveTokenAppend(a: seq<string>, b: seq<string>, c: string)
    ensures RemoveToken(a + b, c) == RemoveToken(a, c) + RemoveToken(b, c)
  {
    if |a| == 0 {
      assert a + b == b;
    } else {
      assert (a + b)[0] == a[0];
      assert (a + b)[1..] == a[1..] + b;
      RemoveTokenAppend(a[1..], b, c);
    }
  }

  /** Removing a token and adding it back differs from the removal alone only in that token. */
  lemma RemoveThenAdd(toks: seq<string>, c: string)
    ensures RemoveToken(AddClass(RemoveToken(toks, c), c), c) == RemoveToken(toks, c)
  {
    var removed := RemoveToken(toks, c);
    RemoveTokenAppend(removed, [c], c);
    assert RemoveToken([c], c) == [];
  }

  /** A list made only of owned tokens filters to nothing. */
  lemma {:induction false} WithoutAllPrefixed(toks: seq<string>, prefixes: seq<string>)
    requires forall i :: 0 <= i < |toks| ==> HasAnyPrefix(toks[i], prefixes)
    ensures Without(toks, prefixes) == []
  {
    if |toks| > 0 {
      WithoutAllPrefixed(toks[1..], prefixes);
    }
  }

  /** Adding only owned classes to a filtered list leaves its unowned tokens as they were. */
  lemma AddOwnedKeepsUnowned(toks: seq<string>, cs: seq<string>, prefixes: seq<string>)
    requires forall i :: 0 <= i < |cs| ==> HasAnyPrefix(cs[i], prefixes)
    ensures Without(AddClasses(toks, cs), prefixes) == Without(toks, prefixes)
  {
    var r := AddClasses(toks, cs);
    var tail := r[|toks|..];
    assert r == toks + tail;
    forall i | 0 <= i < |tail|
      ensures HasAnyPrefix(tail[i], prefixes)
    {
      assert tail[i] == r[|toks| + i];
      assert tail[i] in cs;
    }
    WithoutAppend(toks, tail, prefixes);
    WithoutAllPrefixed(tail, prefixes);
  }
}
