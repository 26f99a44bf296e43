/** The Python built-ins the program relies on, with Python's meaning:
    `None`, `list(s)` of a set, string order as `<` on `str`, `sorted`,
    `str.join`, `str.replace` for the two quote treatments, and slicing
    `s[0:d]`. */
module Builtins {

  datatype Option<T> = None | Some(value: T)

  function Elems<T>(s: seq<T>): set<T>
  {
    set x | x in s
  }

  /** No element occurs twice. */
  predicate Distinct<T(==)>(s: seq<T>)
  {
    forall i, j :: 0 <= i < j < |s| ==> s[i] != s[j]
  }

  /** `order` lists the members of `s`, each exactly once. */
  predicate Enumerates<T(==)>(order: seq<T>, s: set<T>)
  {
    Elems(order) == s && Distinct(order)
  }

  lemma DistinctSnoc<T>(s: seq<T>, x: T)
    requires Distinct(s) && x !in Elems(s)
    ensures Distinct(s + [x])
  {
    forall i, j | 0 <= i < j < |s + [x]|
      ensures (s + [x])[i] != (s + [x])[j]
    {
      if j == |s| {
        assert s[i] in Elems(s);
      }
    }
  }

  lemma DistinctFresh<T>(s: seq<T>, i: nat)
    requires Distinct(s) && i < |s|
    ensures s[i] !in Elems(s[..i])
  {
  }

  /** An enumeration has as many entries as the set has members. */
  lemma {:induction false} EnumerationLength<T>(order: seq<T>, s: set<T>)
    requires Enumerates(order, s)
    ensures |order| == |s|
    decreases |order|
  {
    if order != [] {
      var last := |order| - 1;
      DistinctFresh(order, last);
      ElemsPrefixStep(order, last);
      assert order[..last + 1] == order;
      EnumerationLength(order[..last], s - {order[last]});
    } else {
      ElemsEmpty(order);
    }
  }

  /** `lines` holds the line of every member of `s`. */
  predicate LinesCover<T>(lines: seq<string>, s: set<T>, line: T -> string)
  {
    forall x :: x in s ==> line(x) in lines
  }

  /** Output written one line per entry of an enumeration has one line per
      member of the set, and the line of every member. */
  lemma EnumeratedLines<T>(order: seq<T>, s: set<T>, lines: seq<string>, line: T -> string)
    requires Enumerates(order, s)
    requires |lines| == |order| && forall i :: 0 <= i < |order| ==> lines[i] == line(order[i])
    ensures |lines| == |s| && LinesCover(lines, s, line)
  {
    EnumerationLength(order, s);
    forall x | x in s
      ensures line(x) in lines
    {
      var i :| 0 <= i < |order| && order[i] == x;
      assert lines[i] == line(x);
    }
  }

  lemma ElemsEmpty<T>(s: seq<T>)
    ensures Elems(s) == {} <==> s == []
  {
    if s != [] {
      assert s[0] in Elems(s);
    }
  }

  /** Adding a member that is already there changes nothing. */
  lemma UnionAbsorbs<T>(a: set<T>, b: set<T>, x: T)
    requires x in b
    ensures a + {x} + b == a + b
  {
  }

  lemma UnionAssoc<T>(a: set<T>, b: set<T>, c: set<T>)
    ensures a + b + c == a + (b + c)
  {
  }

  lemma UnionRegroup<T>(a: set<T>, b: set<T>, c: set<T>, x: T)
    ensures a + {x} + (b + c) == a + b + {x} + c
  {
  }

  lemma ElemsPrefixStep<T>(s: seq<T>, i: nat)
    requires i < |s|
    ensures Elems(s[..i + 1]) == Elems(s[..i]) + {s[i]}
  {
    ElemsConcat(s[..i], [s[i]]);
    assert s[..i + 1] == s[..i] + [s[i]];
  }

  lemma ElemsConcat<T>(a: seq<T>, b: seq<T>)
    ensures Elems(a + b) == Elems(a) + Elems(b)
  {
  }

  /** `list(s)`: the members of a set in some order, each once. */
  method ListOf<T>(s: set<T>) returns (xs: seq<T>)
    ensures Enumerates(xs, s)
    ensures |xs| == |s|
  {
    xs := [];
    var rest := s;
    while rest != {}
      invariant rest <= s
      invariant Elems(xs) == s - rest && Distinct(xs)
      invariant |xs| + |rest| == |s|
    {
      var x :| x in rest;
      ElemsConcat(xs, [x]);
      DistinctSnoc(xs, x);
      xs := xs + [x];
      rest := rest - {x};
    }
  }

  // ---------------------------------------------------------------------
  // Python's order on strings: code point by code point, a proper prefix first

  predicate Below(a: string, b: string)
    decreases |a|
  {
    if |a| == 0 then |b| > 0
    else |b| > 0 && (a[0] < b[0] || (a[0] == b[0] && Below(a[1..], b[1..])))
  }

  lemma {:induction false} BelowIrreflexive(a: string)
    ensures !Below(a, a)
    decreases |a|
  {
    if |a| > 0 {
      BelowIrreflexive(a[1..]);
    }
  }

  lemma {:induction false} BelowTransitive(a: string, b: string, c: string)
    requires Below(a, b) && Below(b, c)
    ensures Below(a, c)
    decreases |a|
  {
    if |a| > 0 && a[0] == b[0] && b[0] == c[0] {
      BelowTransitive(a[1..], b[1..], c[1..]);
    }
  }

  lemma {:induction false} BelowTotal(a: string, b: string)
    ensures a == b || Below(a, b) || Below(b, a)
    decreases |a|
  {
    if |a| > 0 && |b| > 0 && a[0] == b[0] {
      BelowTotal(a[1..], b[1..]);
      if a[1..] == b[1..] {
        assert a == [a[0]] + a[1..] && b == [b[0]] + b[1..];
      }
    }
  }

  lemma BelowAsymmetric(a: string, b: string)
    requires Below(a, b)
    ensures !Below(b, a) && a != b
  {
    BelowIrreflexive(a);
    if Below(b, a) {
      BelowTransitive(a, b, a);
    }
  }

  // ---------------------------------------------------------------------
  // sorted(...) of a set of names

  predicate StrictlySorted(r: seq<string>)
  {
    forall i, j :: 0 <= i < j < |r| ==> Below(r[i], r[j])
  }

  predicate IsLeast(m: string, names: set<string>)
  {
    m in names && forall y :: y in names && y != m ==> Below(m, y)
  }

  lemma {:induction false} LeastExists(names: set<string>)
    requires names != {}
    ensures exists m :: IsLeast(m, names)
    decreases |names|
  {
    var x :| x in names;
    if names != {x} {
      LeastExists(names - {x});
      var m :| IsLeast(m, names - {x});
      BelowTotal(x, m);
      if Below(x, m) {
        forall y | y in names && y != x
          ensures Below(x, y)
        {
          if y != m {
            BelowTransitive(x, m, y);
          }
        }
        assert IsLeast(x, names);
      } else {
        assert IsLeast(m, names);
      }
    } else {
      assert IsLeast(x, names);
    }
  }

  lemma LeastUnique(names: set<string>)
    ensures forall m, n :: IsLeast(m, names) && IsLeast(n, names) ==> m == n
  {
    forall m, n | IsLeast(m, names) && IsLeast(n, names)
      ensures m == n
    {
      if m != n {
        BelowAsymmetric(m, n);
      }
    }
  }

  /** `sorted(names)`: the names in increasing order, each once. */
  function SortedNames(names: set<string>): (r: seq<string>)
    ensures Elems(r) == names && |r| == |names|
    ensures StrictlySorted(r)
    decreases names
  {
    if names == {} then []
    else
      LeastExists(names);
      LeastUnique(names);
      var m :| IsLeast(m, names);
      var rest := SortedNames(names - {m});
      SortedCons(m, names, rest);
      [m] + rest
  }

  /** Putting the least name in front of a sorted listing of the others
      gives a sorted listing of all of them. */
  lemma SortedCons(m: string, names: set<string>, rest: seq<string>)
    requires IsLeast(m, names)
    requires Elems(rest) == names - {m} && |rest| == |names - {m}| && StrictlySorted(rest)
    ensures Elems([m] + rest) == names && |[m] + rest| == |names|
    ensures StrictlySorted([m] + rest)
  {
    ElemsConcat([m], rest);
    var r := [m] + rest;
    forall i, j | 0 <= i < j < |r|
      ensures Below(r[i], r[j])
    {
      if i > 0 {
        assert r[i] == rest[i - 1] && r[j] == rest[j - 1];
      } else {
        assert r[j] == rest[j - 1] && r[j] in Elems(rest);
      }
    }
  }

  /** There is only one sorted listing of a set of names, so `SortedNames`
      is the order Python's `sorted` produces. */
  lemma {:induction false} SortedListingUnique(a: seq<string>, b: seq<string>)
    requires StrictlySorted(a) && StrictlySorted(b) && Elems(a) == Elems(b)
    ensures a == b
    decreases |a|
  {
    ElemsEmpty(a);
    ElemsEmpty(b);
    if a != [] {
      SortedHeadIsLeast(a);
      SortedHeadIsLeast(b);
      LeastUnique(Elems(a));
      SortedTail(a);
      SortedTail(b);
      SortedListingUnique(a[1..], b[1..]);
      assert a == [a[0]] + a[1..] && b == [b[0]] + b[1..];
    }
  }

  lemma SortedHeadIsLeast(a: seq<string>)
    requires StrictlySorted(a) && a != []
    ensures IsLeast(a[0], Elems(a))
  {
    forall y | y in Elems(a) && y != a[0]
      ensures Below(a[0], y)
    {
      var j :| 0 <= j < |a| && a[j] == y;
    }
  }

  lemma SortedTail(a: seq<string>)
    requires StrictlySorted(a) && a != []
    ensures StrictlySorted(a[1..]) && Elems(a[1..]) == Elems(a) - {a[0]}
  {
    assert a == [a[0]] + a[1..];
    ElemsConcat([a[0]], a[1..]);
    BelowIrreflexive(a[0]);
  }

  // ---------------------------------------------------------------------
  // str.join and str.replace

  /** `sep.join(parts)`. */
  function Join(sep: string, parts: seq<string>): (r: string)
    ensures parts == [] ==> r == ""
    ensures |parts| == 1 ==> r == parts[0]
  {
    if parts == [] then ""
    else if |parts| == 1 then parts[0]
    else parts[0] + sep + Join(sep, parts[1..])
  }

  /** Joining a longer list puts one more separator and the new part at the end. */
  lemma {:induction false} JoinAppend(sep: string, parts: seq<string>, last: string)
    requires parts != []
    ensures Join(sep, parts + [last]) == Join(sep, parts) + sep + last
    decreases |parts|
  {
    if |parts| == 1 {
      assert parts + [last] == [parts[0], last];
    } else {
      assert (parts + [last])[1..] == parts[1..] + [last];
      JoinAppend(sep, parts[1..], last);
    }
  }

  /** `s.replace('"', '\\"')`: each double quote gets a backslash in front. */
  function EscapeQuotes(s: string): (r: string)
    ensures r != [] ==> r[0] != '"'
    ensures |r| >= |s|
  {
    if s == [] then []
    else (if s[0] == '"' then ['\\', '"'] else [s[0]]) + EscapeQuotes(s[1..])
  }

  /** Reads a backslash followed by a double quote back as the double quote. */
  function UnescapeQuotes(r: string): string
  {
    if r == [] then []
    else if |r| >= 2 && r[0] == '\\' && r[1] == '"' then ['"'] + UnescapeQuotes(r[2..])
    else [r[0]] + UnescapeQuotes(r[1..])
  }

  /** Escaping loses nothing: the label text comes back unchanged. */
  lemma {:induction false} EscapeRoundTrip(s: string)
    ensures UnescapeQuotes(EscapeQuotes(s)) == s
  {
    if s != [] {
      EscapeRoundTrip(s[1..]);
      var rest := EscapeQuotes(s[1..]);
      if s[0] == '"' {
        assert EscapeQuotes(s) == ['\\', '"'] + rest;
        assert (['\\', '"'] + rest)[2..] == rest;
      } else {
        assert EscapeQuotes(s) == [s[0]] + rest;
        assert ([s[0]] + rest)[1..] == rest;
      }
      assert s == [s[0]] + s[1..];
    }
  }

  /** After escaping, every double quote has a backslash in front of it. */
  lemma {:induction false} EscapedQuotesArePreceded(s: string, i: nat)
    requires i < |EscapeQuotes(s)| && EscapeQuotes(s)[i] == '"'
    ensures i > 0 && EscapeQuotes(s)[i - 1] == '\\'
  {
    var head := if s[0] == '"' then ['\\', '"'] else [s[0]];
    assert EscapeQuotes(s) == head + EscapeQuotes(s[1..]);
    if i >= |head| {
      EscapedQuotesArePreceded(s[1..], i - |head|);
    }
  }

  /** `s.replace('"', '').replace('\'', '')`. */
  function StripQuotes(s: string): (r: string)
    ensures forall c :: c in r <==> c in s && c != '"' && c != '\''
    ensures |r| <= |s|
    ensures |s| == 1 ==> r == (if s[0] == '"' || s[0] == '\'' then [] else s)
  {
    if s == [] then []
    else (if s[0] == '"' || s[0] == '\'' then [] else [s[0]]) + StripQuotes(s[1..])
  }

  /** Stripping works character by character: stripping two pieces and
      putting them together is stripping the whole. With the one-character
      cases in the contract of `StripQuotes` this fixes the result, order
      and repeats included. */
  lemma {:induction false} StripQuotesConcat(a: string, b: string)
    ensures StripQuotes(a + b) == StripQuotes(a) + StripQuotes(b)
    decreases |a|
  {
    if a != [] {
      assert (a + b)[0] == a[0];
      assert (a + b)[1..] == a[1..] + b;
      StripQuotesConcat(a[1..], b);
    } else {
      assert a + b == b;
    }
  }

  /** Stripping keeps a quote-free message as it is. */
  lemma {:induction false} StripQuotesKeepsPlainText(s: string)
    requires forall c :: c in s ==> c != '"' && c != '\''
    ensures StripQuotes(s) == s
  {
    if s != [] {
      assert s[0] in s;
      assert forall c :: c in s[1..] ==> c in s;
      StripQuotesKeepsPlainText(s[1..]);
      assert s == [s[0]] + s[1..];
    }
  }

  /** No double quote occurs in `s` (a hexadecimal commit id, say). */
  predicate QuoteFree(s: string)
  {
    forall i :: 0 <= i < |s| ==> s[i] != '"'
  }

  /** A quoted name at the head of a line can be read back: the first
      closing quote after the opening one ends it. */
  lemma QuotedHeadInjective(a: string, b: string, ra: string, rb: string)
    requires QuoteFree(a) && QuoteFree(b)
    requires "\t\"" + a + "\"" + ra == "\t\"" + b + "\"" + rb
    ensures a == b && ra == rb
  {
    var s := "\t\"" + a + "\"" + ra;
    var t := "\t\"" + b + "\"" + rb;
    assert s[2 + |a|] == '"';
    assert t[2 + |b|] == '"';
    if |a| == |b| {
      assert a == s[2..2 + |a|];
      assert b == t[2..2 + |b|];
      assert ra == s[3 + |a|..];
      assert rb == t[3 + |b|..];
    }
  }

  // ---------------------------------------------------------------------
  // Slicing

  /** `s[0:d]` for a non-negative `d`: the first `d` characters, or all of
      `s` when it is shorter. */
  function Prefix(s: string, d: nat): (r: string)
    ensures |r| == if d <= |s| then d else |s|
    ensures r <= s
  {
    if d <= |s| then s[..d] else s
  }
}
