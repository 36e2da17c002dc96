/** Shared vocabulary of the model: identifiers, optional values, handler
    outcomes, the JavaScript string operations the handlers rely on, and the
    folds (filter, count, sum, distinct keys) the pages and aggregates use. */
module Base {

  /** A document id (a MongoDB ObjectId, abstracted to a number). */
  type Id = nat

  datatype Option<T> = None | Some(value: T)

  /** What a request handler answers.
      Done: a 2xx answer carrying a value; Fail: an explicit
      `res.status(code).json({ message })`; Unhandled: the handler's promise
      rejects and the handler itself writes no response (the files without a
      try/catch). */
  datatype Outcome<T> =
    | Done(value: T)
    | Fail(code: int, message: string)
    | Unhandled

  /** A numeric request field: a number (or a numeric string, which casts
      to one), absent (`undefined`), or something that is not a number.
      The empty string and `null` have no case of their own. `Number` maps
      both to 0, so where a handler reads the field through `Number` (a
      payment's amount and year, the stock added to an existing grocery
      item) they are `Num(0.0)`. Where only Mongoose's Number cast reads it
      (a new grocery item) the cast turns both into null, which is written
      `Missing` here, so the schema default is stored where Mongoose would
      store null. In the menu editor, `Missing` is the empty input box,
      which `Number(q || 0)` reads as 0. */
  datatype NumberInput = Num(value: real) | Missing | NotANumber

  // ---------------------------------------------------------------------------
  // JavaScript strings
  // ---------------------------------------------------------------------------

  /** The characters String.prototype.trim removes: the ECMAScript WhiteSpace
      and LineTerminator code points, the ASCII ones up to the blank and the
      others from U+00A0 on. */
  predicate IsSpace(c: char)
  {
    c == ' ' || ('\t' <= c <= '\r')
    || c == '\U{A0}' || c == '\U{1680}' || ('\U{2000}' <= c <= '\U{200A}')
    || c == '\U{2028}' || c == '\U{2029}' || c == '\U{202F}' || c == '\U{205F}'
    || c == '\U{3000}' || c == '\U{FEFF}'
  }

  /** Every character of `s` is white space. */
  predicate AllSpace(s: string)
  {
    s == [] || (IsSpace(s[0]) && AllSpace(s[1..]))
  }

  lemma {:induction false} AllSpaceAppend(a: string, b: string)
    ensures AllSpace(a + b) <==> AllSpace(a) && AllSpace(b)
  {
    if a == [] {
      assert a + b == b;
    } else {
      assert (a + b)[0] == a[0] && (a + b)[1..] == a[1..] + b;
      AllSpaceAppend(a[1..], b);
    }
  }

  /** Drops leading white space. */
  function TrimStart(s: string): (r: string)
    ensures |r| <= |s| && r == s[|s| - |r|..]
    ensures r == [] || !IsSpace(r[0])
    ensures r == [] <==> AllSpace(s)
  {
    if s != [] && IsSpace(s[0]) then TrimStart(s[1..]) else s
  }

  /** Drops trailing white space. */
  function TrimEnd(s: string): (r: string)
    ensures |r| <= |s| && r == s[..|r|]
    ensures r == [] || !IsSpace(r[|r| - 1])
    ensures r == [] <==> AllSpace(s)
  {
    if s != [] && IsSpace(s[|s| - 1]) then
      var init := s[..|s| - 1];
      assert s == init + [s[|s| - 1]];
      AllSpaceAppend(init, [s[|s| - 1]]);
      TrimEnd(init)
    else if s == [] then s
    else
      assert s == s[..|s| - 1] + [s[|s| - 1]];
      AllSpaceAppend(s[..|s| - 1], [s[|s| - 1]]);
      s
  }

  /** String.prototype.trim: the longest infix without white space at either end. */
  function Trim(s: string): (r: string)
    ensures |r| <= |s|
    ensures r == [] || (!IsSpace(r[0]) && !IsSpace(r[|r| - 1]))
    ensures r == [] <==> AllSpace(s)
  {
    TrimEnd(TrimStart(s))
  }

  lemma TrimIdempotent(s: string)
    ensures TrimStart(Trim(s)) == Trim(s) && TrimEnd(Trim(s)) == Trim(s)
    ensures Trim(Trim(s)) == Trim(s)
  {
    var t := Trim(s);
    assert TrimStart(t) == t;
    assert TrimEnd(t) == t;
  }

  /** What `trim` returned is its own trim. */
  lemma TrimmedIsFixed(t: string, s: string)
    requires t == Trim(s)
    ensures Trim(t) == t
  {
    TrimIdempotent(s);
  }

  /** TrimStart drops only white space. */
  lemma {:induction false} TrimStartDropsSpace(s: string)
    ensures AllSpace(s[..|s| - |TrimStart(s)|])
  {
    if s != [] && IsSpace(s[0]) {
      TrimStartDropsSpace(s[1..]);
      var k := |s| - |TrimStart(s)|;
      assert s[..k] == [s[0]] + s[1..][..k - 1];
    }
  }

  /** TrimEnd drops only white space. */
  lemma {:induction false} TrimEndDropsSpace(s: string)
    ensures AllSpace(s[|TrimEnd(s)|..])
  {
    if s != [] && IsSpace(s[|s| - 1]) {
      var init := s[..|s| - 1];
      TrimEndDropsSpace(init);
      var k := |TrimEnd(s)|;
      assert s[k..] == init[k..] + [s[|s| - 1]];
      AllSpaceAppend(init[k..], [s[|s| - 1]]);
    }
  }

  /** Trimming cuts white space off the two ends and nothing else: the
      result is the infix of `s` starting at `a`, and what lies before and
      after it is white space. */
  lemma TrimInfix(s: string) returns (a: nat)
    ensures a + |Trim(s)| <= |s| && Trim(s) == s[a..a + |Trim(s)|]
    ensures AllSpace(s[..a]) && AllSpace(s[a + |Trim(s)|..])
  {
    var u := TrimStart(s);
    a := |s| - |u|;
    TrimStartDropsSpace(s);
    TrimEndDropsSpace(u);
    InfixOfSuffix(s, a, u, TrimEnd(u));
  }

  /** A prefix `r` of the suffix `u == s[a..]`, followed in `u` by white
      space only, is the infix of `s` at `a`, followed in `s` by white
      space only. */
  lemma InfixOfSuffix(s: string, a: nat, u: string, r: string)
    requires a <= |s| && u == s[a..] && |r| <= |u| && r == u[..|r|] && AllSpace(u[|r|..])
    ensures r == s[a..a + |r|] && AllSpace(s[a + |r|..])
  {
    assert s[a..][..|r|] == s[a..a + |r|] && s[a..][|r|..] == s[a + |r|..];
  }

  /** Every character of the trimmed string comes from the string. */
  lemma TrimChar(s: string, k: nat)
    requires k < |Trim(s)|
    ensures exists j :: 0 <= j < |s| && Trim(s)[k] == s[j]
  {
    var t := TrimStart(s);
    assert Trim(s)[k] == t[k] by {
      assert Trim(s) == TrimEnd(t);
    }
    assert t[k] == s[|s| - |t| + k] by {
      assert t == s[|s| - |t|..];
    }
  }

  /** A string without white space at either end is its own trim. */
  lemma TrimNoop(s: string)
    requires s == [] || (!IsSpace(s[0]) && !IsSpace(s[|s| - 1]))
    ensures TrimStart(s) == s && TrimEnd(s) == s && Trim(s) == s
  {
    assert TrimStart(s) == s;
  }

  /** A concatenation that starts and ends with a non-space character is
      its own trim. */
  lemma TrimKeepsConcat(a: string, b: string)
    requires a != [] && !IsSpace(a[0]) && b != [] && !IsSpace(b[|b| - 1])
    ensures TrimStart(a + b) == a + b && TrimEnd(a + b) == a + b
    ensures Trim(a + b) == a + b && !AllSpace(a + b)
  {
    var s := a + b;
    assert s[0] == a[0] && s[|s| - 1] == b[|b| - 1];
    TrimNoop(s);
  }

  /** String.prototype.toLowerCase, for the ASCII letters. */
  function LowerChar(c: char): char
  {
    if 'A' <= c <= 'Z' then (c as int + 32) as char else c
  }

  function Lower(s: string): (r: string)
    ensures |r| == |s|
  {
    if s == [] then [] else [LowerChar(s[0])] + Lower(s[1..])
  }

  /** Lower-casing works character by character. (Kept out of Lower's own
      contract: where a string equals a lower-cased, trimmed form of itself,
      that contract would keep producing new positions to compare.) */
  lemma {:induction false} LowerAt(s: string)
    ensures forall i :: 0 <= i < |s| ==> Lower(s)[i] == LowerChar(s[i])
  {
    if s != [] {
      LowerAt(s[1..]);
      assert Lower(s) == [LowerChar(s[0])] + Lower(s[1..]);
    }
  }

  predicate HasPrefix(s: string, p: string)
  {
    |p| <= |s| && s[..|p|] == p
  }

  /** Binary string order (JavaScript's `<` on strings, MongoDB's default
      collation): the first differing character decides, and a proper prefix
      comes first. */
  predicate StringBefore(a: string, b: string)
  {
    b != [] && (a == [] || a[0] < b[0] || (a[0] == b[0] && StringBefore(a[1..], b[1..])))
  }

  lemma {:induction false} StringBeforeIrreflexive(a: string)
    ensures !StringBefore(a, a)
  {
    if a != [] {
      StringBeforeIrreflexive(a[1..]);
    }
  }

  /** `s.split(' ')[1]`: the text between the first and the second space
      (or the end), None (undefined) when `s` has no space. */
  function SecondField(s: string): (r: Option<string>)
    ensures r.None? <==> ' ' !in s
    ensures r.Some? ==> ' ' !in r.value
    ensures r.Some? ==>
      exists i :: 0 <= i && i + 1 + |r.value| <= |s| && s[i] == ' ' && ' ' !in s[..i]
                  && s[i + 1..i + 1 + |r.value|] == r.value
                  && (i + 1 + |r.value| == |s| || s[i + 1 + |r.value|] == ' ')
  {
    var i := SpaceAt(s);
    if i < 0 then None
    else
      var rest := s[i + 1..];
      var j := SpaceAt(rest);
      var f := if j < 0 then rest else rest[..j];
      FieldOfRest(s, i, j, f);
      Some(f)
  }

  /** The field after the space at `i` runs to the next space `j` of the
      rest, or to the end when there is none. */
  lemma FieldOfRest(s: string, i: nat, j: int, f: string)
    requires i < |s| && -1 <= j < |s| - i - 1
    requires f == if j < 0 then s[i + 1..] else s[i + 1..][..j]
    requires j >= 0 ==> s[i + 1..][j] == ' '
    ensures i + 1 + |f| <= |s| && s[i + 1..i + 1 + |f|] == f
    ensures i + 1 + |f| == |s| || s[i + 1 + |f|] == ' '
  {
    if j >= 0 {
      assert s[i + 1..][..j] == s[i + 1..i + 1 + j];
      assert s[i + 1 + j] == s[i + 1..][j];
    } else {
      assert s[i + 1..i + 1 + |f|] == s[i + 1..];
    }
  }

  /** `indexOf(' ')`: the position of the first space, -1 when there is none. */
  function SpaceAt(s: string): (r: int)
    ensures -1 <= r < |s|
    ensures r >= 0 ==> s[r] == ' ' && ' ' !in s[..r]
    ensures r < 0 <==> ' ' !in s
  {
    if s == [] then -1
    else if s[0] == ' ' then 0
    else
      var k := SpaceAt(s[1..]);
      assert s == [s[0]] + s[1..];
      if k < 0 then -1
      else
        assert s[..k + 1] == [s[0]] + s[1..][..k];
        k + 1
  }

  /** An `Authorization: Bearer <token>` header gives back the token. */
  lemma BearerField(token: string)
    requires ' ' !in token
    ensures HasPrefix("Bearer " + token, "Bearer") && SecondField("Bearer " + token) == Some(token)
  {
    var s := "Bearer " + token;
    assert s[..6] == "Bearer";
    assert s[6] == ' ' && forall k :: 0 <= k < 6 ==> s[k] != ' ';
    assert s[7..] == token;
  }

  /** String.prototype.includes: `sub` occurs somewhere in `s`. */
  predicate Includes(s: string, sub: string)
    decreases |s|
  {
    HasPrefix(s, sub) || (s != [] && Includes(s[1..], sub))
  }

  /** `sub` occurs in `s` starting at index `i`. */
  predicate OccursAt(s: string, sub: string, i: int)
  {
    0 <= i <= |s| - |sub| && s[i..i + |sub|] == sub
  }

  lemma {:induction false} IncludesAt(s: string, sub: string)
    ensures Includes(s, sub) <==> exists i :: OccursAt(s, sub, i)
    decreases |s|
  {
    assert HasPrefix(s, sub) <==> OccursAt(s, sub, 0);
    if s != [] {
      IncludesAt(s[1..], sub);
      forall i | OccursAt(s[1..], sub, i)
        ensures OccursAt(s, sub, i + 1)
      {
        assert s[1..][i..i + |sub|] == s[i + 1..i + 1 + |sub|];
      }
      forall i | OccursAt(s, sub, i) && i > 0
        ensures OccursAt(s[1..], sub, i - 1)
      {
        assert s[1..][i - 1..i - 1 + |sub|] == s[i..i + |sub|];
      }
    } else {
      forall i | OccursAt(s, sub, i) ensures i == 0 { }
    }
  }

  /** Every string includes the empty string. */
  lemma IncludesEmpty(s: string)
    ensures Includes(s, "")
  {
  }

  /** A character outside the Basic Multilingual Plane: JavaScript holds it
      as a surrogate pair, two UTF-16 code units. */
  predicate IsAstral(c: char)
  {
    c as int > 0xFFFF
  }

  /** The UTF-16 code units JavaScript uses for one character. */
  function Units(c: char): nat
  {
    if IsAstral(c) then 2 else 1
  }

  /** String.prototype.length, and the count Mongoose's `maxlength` and the
      controllers' length checks compare: UTF-16 code units, one per
      character of the Basic Multilingual Plane and two per character above
      it. */
  function JsLength(s: string): (n: nat)
    ensures |s| <= n <= 2 * |s|
  {
    if s == [] then 0 else Units(s[0]) + JsLength(s[1..])
  }

  /** JavaScript's length is the number of characters exactly when no
      character lies above the Basic Multilingual Plane. */
  lemma {:induction false} JsLengthIsSize(s: string)
    ensures JsLength(s) == |s| <==> forall i :: 0 <= i < |s| ==> !IsAstral(s[i])
  {
    if s != [] {
      JsLengthIsSize(s[1..]);
      assert forall i :: 1 <= i < |s| ==> s[i] == s[1..][i - 1];
    }
  }

  /** A string wholly outside the Basic Multilingual Plane counts two units
      per character. */
  lemma {:induction false} JsLengthAstral(s: string)
    requires forall i :: 0 <= i < |s| ==> IsAstral(s[i])
    ensures JsLength(s) == 2 * |s|
  {
    if s != [] {
      assert forall i :: 0 <= i < |s[1..]| ==> s[1..][i] == s[i + 1];
      JsLengthAstral(s[1..]);
    }
  }

  lemma {:induction false} JsLengthConcat(a: string, b: string)
    ensures JsLength(a + b) == JsLength(a) + JsLength(b)
  {
    if a != [] {
      assert (a + b)[0] == a[0] && (a + b)[1..] == a[1..] + b;
      JsLengthConcat(a[1..], b);
    } else {
      assert a + b == b;
    }
  }

  /** String.prototype.substring(0, n) for n >= 0: the longest prefix of at
      most n code units. Where the cut falls inside a surrogate pair,
      JavaScript keeps the pair's first half, a lone surrogate that a string
      of characters cannot hold; this prefix stops before the pair. */
  function JsPrefix(s: string, n: nat): (r: string)
    ensures |r| <= |s| && r == s[..|r|] && JsLength(r) <= n
    ensures |r| < |s| ==> JsLength(r) + Units(s[|r|]) > n
    ensures JsLength(s) <= n <==> r == s
  {
    if s == [] || Units(s[0]) > n then []
    else
      var rest := JsPrefix(s[1..], n - Units(s[0]));
      var r := [s[0]] + rest;
      assert r[1..] == rest;
      assert r == s[..|r|];
      r
  }

  /** A string of decimal digits for a natural number (template-literal
      interpolation): it reads back as `n` and has no leading zero. */
  function NatToString(n: nat): (r: string)
    ensures |r| >= 1
    ensures forall i :: 0 <= i < |r| ==> '0' <= r[i] <= '9'
    ensures DigitsValue(r) == n
    ensures r[0] == '0' ==> r == "0"
  {
    if n < 10 then [DigitChar(n)]
    else
      var p := NatToString(n / 10);
      assert (p + [DigitChar(n % 10)])[..|p|] == p;
      p + [DigitChar(n % 10)]
  }

  /** The number a string of decimal digits denotes. */
  function DigitsValue(s: string): nat
    requires forall i :: 0 <= i < |s| ==> '0' <= s[i] <= '9'
  {
    if s == [] then 0 else DigitsValue(s[..|s| - 1]) * 10 + (s[|s| - 1] as int - '0' as int)
  }

  function DigitChar(d: nat): char
    requires d < 10
  {
    ('0' as int + d) as char
  }

  // ---------------------------------------------------------------------------
  // Folds over sequences
  // ---------------------------------------------------------------------------

  /** Array.prototype.filter. */
  function Filter<T(!new)>(s: seq<T>, p: T -> bool): (r: seq<T>)
    ensures |r| <= |s|
    ensures forall x :: x in r <==> x in s && p(x)
    ensures forall i :: 0 <= i < |r| ==> p(r[i])
  {
    if s == [] then [] else (if p(s[0]) then [s[0]] else []) + Filter(s[1..], p)
  }

  /** The number of elements satisfying `p` (`filter(p).length`). */
  function Count<T>(s: seq<T>, p: T -> bool): (n: nat)
    ensures n <= |s|
    ensures n == 0 <==> forall i :: 0 <= i < |s| ==> !p(s[i])
  {
    if s == [] then 0 else (if p(s[0]) then 1 else 0) + Count(s[1..], p)
  }

  lemma {:induction false} FilterLength<T(!new)>(s: seq<T>, p: T -> bool)
    ensures |Filter(s, p)| == Count(s, p)
  {
    if s != [] {
      FilterLength(s[1..], p);
    }
  }

  /** Every element is counted on exactly one side of a predicate. */
  lemma {:induction false} CountComplement<T>(s: seq<T>, p: T -> bool, q: T -> bool)
    requires forall x :: q(x) == !p(x)
    ensures Count(s, p) + Count(s, q) == |s|
  {
    if s != [] {
      CountComplement(s[1..], p, q);
    }
  }

  lemma {:induction false} CountAppend<T>(a: seq<T>, b: seq<T>, p: T -> bool)
    ensures Count(a + b, p) == Count(a, p) + Count(b, p)
  {
    if a == [] {
      assert a + b == b;
    } else {
      assert (a + b)[1..] == a[1..] + b;
      CountAppend(a[1..], b, p);
    }
  }

  /** `s.reduce((acc, x) => acc + f(x), 0)`. */
  function Sum<T>(s: seq<T>, f: T -> real): real
  {
    if s == [] then 0.0 else f(s[0]) + Sum(s[1..], f)
  }

  lemma {:induction false} SumAppend<T>(a: seq<T>, b: seq<T>, f: T -> real)
    ensures Sum(a + b, f) == Sum(a, f) + Sum(b, f)
  {
    if a == [] {
      assert a + b == b;
    } else {
      assert (a + b)[1..] == a[1..] + b;
      SumAppend(a[1..], b, f);
    }
  }

  /** The last element's share of a sum. */
  lemma SumLast<T>(s: seq<T>, f: T -> real)
    requires s != []
    ensures Sum(s, f) == Sum(s[..|s| - 1], f) + f(s[|s| - 1])
  {
    var x := s[|s| - 1];
    assert s == s[..|s| - 1] + [x];
    SumAppend(s[..|s| - 1], [x], f);
    assert Sum([x], f) == f(x) + Sum([x][1..], f);
  }

  /** Sum over `s` splits into the sum over the kept and the dropped elements. */
  lemma {:induction false} SumFilterSplit<T(!new)>(s: seq<T>, f: T -> real, p: T -> bool, q: T -> bool)
    requires forall x :: q(x) == !p(x)
    ensures Sum(s, f) == Sum(Filter(s, p), f) + Sum(Filter(s, q), f)
  {
    if s != [] {
      SumFilterSplit(s[1..], f, p, q);
      var head := if p(s[0]) then [s[0]] else [];
      var rest := Filter(s[1..], p);
      SumAppend(head, rest, f);
      var head' := if q(s[0]) then [s[0]] else [];
      SumAppend(head', Filter(s[1..], q), f);
    }
  }

  /** `Array.prototype.findIndex`, and a store's `findOne`: the position of the
      first element satisfying `p`, or -1. */
  function FirstWhere<T>(s: seq<T>, p: T -> bool): (r: int)
    ensures -1 <= r < |s|
    ensures r >= 0 ==> p(s[r]) && forall j :: 0 <= j < r ==> !p(s[j])
    ensures r == -1 <==> forall j :: 0 <= j < |s| ==> !p(s[j])
  {
    if s == [] then -1
    else if p(s[0]) then 0
    else
      var k := FirstWhere(s[1..], p);
      if k == -1 then -1 else k + 1
  }

  /** Array.prototype.map. */
  function Map<T, U>(s: seq<T>, f: T -> U): (r: seq<U>)
    ensures |r| == |s|
    ensures forall i :: 0 <= i < |s| ==> r[i] == f(s[i])
  {
    if s == [] then [] else [f(s[0])] + Map(s[1..], f)
  }

  lemma {:induction false} CountMap<T, U>(s: seq<T>, f: T -> U, p: U -> bool, q: T -> bool)
    requires forall x :: q(x) == p(f(x))
    ensures Count(Map(s, f), p) == Count(s, q)
  {
    if s != [] {
      assert Map(s, f)[1..] == Map(s[1..], f);
      CountMap(s[1..], f, p, q);
    }
  }

  /** Counting inside a filter is counting both conditions at once. */
  lemma {:induction false} CountFilter<T(!new)>(s: seq<T>, p: T -> bool, q: T -> bool, both: T -> bool)
    requires forall x :: both(x) == (p(x) && q(x))
    ensures Count(Filter(s, p), q) == Count(s, both)
  {
    if s != [] {
      CountFilter(s[1..], p, q, both);
      var head := if p(s[0]) then [s[0]] else [];
      CountAppend(head, Filter(s[1..], p), q);
    }
  }

  /** The head of `a` sits somewhere in its permutation `b`; the rest of
      `a` is a permutation of `b` without that element. */
  lemma MatchHead<T>(a: seq<T>, b: seq<T>) returns (k: nat)
    requires a != [] && multiset(a) == multiset(b)
    ensures k < |b| && b[k] == a[0]
    ensures multiset(a[1..]) == multiset(b[..k] + b[k + 1..])
  {
    var x := a[0];
    assert a == [x] + a[1..];
    assert multiset(a[1..]) == multiset(a) - multiset{x};
    assert x in b by {
      assert x in multiset(b);
    }
    k :| 0 <= k < |b| && b[k] == x;
    MultisetWithout(b, k);
  }

  /** Dropping position `k` drops one occurrence of its element. */
  lemma MultisetWithout<T>(b: seq<T>, k: nat)
    requires k < |b|
    ensures multiset(b[..k] + b[k + 1..]) == multiset(b) - multiset{b[k]}
  {
    assert b == b[..k] + [b[k]] + b[k + 1..];
  }

  /** A count depends only on the multiset of elements, not on their order. */
  lemma {:induction false} CountPermutation<T>(a: seq<T>, b: seq<T>, p: T -> bool)
    requires multiset(a) == multiset(b)
    ensures Count(a, p) == Count(b, p)
    decreases |a|
  {
    if a == [] {
      assert |b| == |multiset(b)| == 0;
    } else {
      var k := MatchHead(a, b);
      var rest := b[..k] + b[k + 1..];
      CountPermutation(a[1..], rest, p);
      assert b == b[..k] + [b[k]] + b[k + 1..];
      assert [b[k]][1..] == [];
      CountAppend(b[..k] + [b[k]], b[k + 1..], p);
      CountAppend(b[..k], [b[k]], p);
      CountAppend(b[..k], b[k + 1..], p);
    }
  }

  /** A sum depends only on the multiset of elements, not on their order. */
  lemma {:induction false} SumPermutation<T>(a: seq<T>, b: seq<T>, f: T -> real)
    requires multiset(a) == multiset(b)
    ensures Sum(a, f) == Sum(b, f)
    decreases |a|
  {
    if a == [] {
      assert |b| == |multiset(b)| == 0;
    } else {
      var k := MatchHead(a, b);
      var rest := b[..k] + b[k + 1..];
      SumPermutation(a[1..], rest, f);
      assert b == b[..k] + [b[k]] + b[k + 1..];
      assert [b[k]][1..] == [];
      SumAppend(b[..k] + [b[k]], b[k + 1..], f);
      SumAppend(b[..k], [b[k]], f);
      SumAppend(b[..k], b[k + 1..], f);
    }
  }

  /** A prefix one element longer. */
  lemma TakeOneMore<T>(s: seq<T>, i: nat)
    requires i < |s|
    ensures s[..i + 1] == s[..i] + [s[i]]
  {
  }

  /** `a` is `b` with some elements dropped, order kept. */
  ghost predicate IsSubsequence<T>(a: seq<T>, b: seq<T>)
    decreases |b|
  {
    a == [] || (b != [] && ((a[0] == b[0] && IsSubsequence(a[1..], b[1..])) || IsSubsequence(a, b[1..])))
  }

  /** Array.prototype.filter keeps the order of what it keeps. */
  lemma {:induction false} FilterIsSubsequence<T(!new)>(s: seq<T>, p: T -> bool)
    ensures IsSubsequence(Filter(s, p), s)
  {
    if s != [] {
      FilterIsSubsequence(s[1..], p);
      var r := Filter(s, p);
      if p(s[0]) {
        assert r == [s[0]] + Filter(s[1..], p);
        assert r[1..] == Filter(s[1..], p);
      } else {
        assert r == Filter(s[1..], p);
      }
    }
  }

  /** Array.prototype.filter keeps every copy of what passes the test and
      no copy of anything else. */
  lemma {:induction false} FilterMultiset<T(!new)>(s: seq<T>, p: T -> bool)
    ensures forall x :: multiset(Filter(s, p))[x] == if p(x) then multiset(s)[x] else 0
  {
    if s != [] {
      FilterMultiset(s[1..], p);
      assert s == [s[0]] + s[1..];
      assert Filter(s, p) == (if p(s[0]) then [s[0]] else []) + Filter(s[1..], p);
    }
  }

  lemma FilterSubMultiset<T(!new)>(s: seq<T>, p: T -> bool)
    ensures multiset(Filter(s, p)) <= multiset(s)
  {
    FilterMultiset(s, p);
  }

  /** A prefix holds no more copies of anything than the whole. */
  lemma PrefixSubMultiset<T>(s: seq<T>, n: nat)
    requires n <= |s|
    ensures multiset(s[..n]) <= multiset(s)
  {
    assert s == s[..n] + s[n..];
  }

  /** `a` holds no value twice. */
  predicate NoDuplicates<T(==)>(a: seq<T>)
  {
    forall i, j :: 0 <= i < j < |a| ==> a[i] != a[j]
  }

  /** Without duplicates, the head is not in the tail and the tail has none. */
  lemma NoDuplicatesTail<T>(a: seq<T>)
    requires a != [] && NoDuplicates(a)
    ensures NoDuplicates(a[1..]) && a[0] !in a[1..]
  {
    forall i, j | 0 <= i < j < |a[1..]| ensures a[1..][i] != a[1..][j] {
      assert a[1..][i] == a[i + 1] && a[1..][j] == a[j + 1];
    }
    forall k | 0 <= k < |a[1..]| ensures a[1..][k] != a[0] {
      assert a[1..][k] == a[k + 1];
    }
  }

  /** MongoDB's `$addToSet`: append `x` unless it is already there. */
  function AddToSet<T(==,!new)>(s: seq<T>, x: T): (r: seq<T>)
    ensures x in r
    ensures forall y :: y in r <==> y in s || y == x
    ensures NoDuplicates(s) ==> NoDuplicates(r)
    ensures x in s ==> r == s
    ensures |r| <= |s| + 1
  {
    if x in s then s else s + [x]
  }

  lemma AddToSetIdempotent<T(!new)>(s: seq<T>, x: T)
    ensures AddToSet(AddToSet(s, x), x) == AddToSet(s, x)
  {
  }

  /** The keys of `s` in order of first appearance: the order in which a
      `forEach` that fills a plain object creates its properties, and so the
      order of `Object.keys`/`Object.values` for keys that are not array
      indices. */
  function DistinctKeys<T, K(==,!new)>(s: seq<T>, key: T -> K): (r: seq<K>)
    ensures NoDuplicates(r)
    ensures forall k :: k in r <==> exists i :: 0 <= i < |s| && key(s[i]) == k
    ensures |r| <= |s|
  {
    if s == [] then []
    else
      var d := DistinctKeys(s[..|s| - 1], key);
      assert forall i :: 0 <= i < |s| - 1 ==> s[..|s| - 1][i] == s[i];
      if key(s[|s| - 1]) in d then d else d + [key(s[|s| - 1])]
  }

  /** A dictionary entry, 0 when absent (`data[key] || 0`). */
  function Lookup<K>(m: map<K, real>, k: K): real
  {
    if k in m then m[k] else 0.0
  }

  /** The plain object a `forEach` fills with running totals per key:
      `data[key(x)] = (data[key(x)] || 0) + f(x)` for each `x` in turn. */
  function Totals<T, K>(s: seq<T>, key: T -> K, f: T -> real): map<K, real>
  {
    if s == [] then map[]
    else
      var t := Totals(s[..|s| - 1], key, f);
      var k := key(s[|s| - 1]);
      t[k := Lookup(t, k) + f(s[|s| - 1])]
  }

  /** The entries of `m` under the keys `ks`, added up. */
  function ValuesSum<K>(ks: seq<K>, m: map<K, real>): real
  {
    if ks == [] then 0.0 else ValuesSum(ks[..|ks| - 1], m) + Lookup(m, ks[|ks| - 1])
  }

  /** One more element: its key's entry grows by its amount, and its key
      joins the keys if it is new. */
  lemma TotalsStep<T, K(!new)>(s: seq<T>, i: nat, key: T -> K, f: T -> real)
    requires i < |s|
    ensures Totals(s[..i + 1], key, f) == Totals(s[..i], key, f)[key(s[i]) := Lookup(Totals(s[..i], key, f), key(s[i])) + f(s[i])]
    ensures DistinctKeys(s[..i + 1], key) ==
      if key(s[i]) in DistinctKeys(s[..i], key) then DistinctKeys(s[..i], key)
      else DistinctKeys(s[..i], key) + [key(s[i])]
  {
    assert s[..i + 1][..i] == s[..i];
  }

  /** The step of a loop that keeps `keys` and `data` as the keys and the
      running totals of the first `i` elements. */
  lemma TotalsAdvance<T, K(!new)>(s: seq<T>, i: nat, key: T -> K, f: T -> real, keys: seq<K>, data: map<K, real>, k: K, a: real)
    requires i < |s| && keys == DistinctKeys(s[..i], key) && data == Totals(s[..i], key, f)
    requires k == key(s[i]) && a == f(s[i])
    ensures (if k in data then keys else keys + [k]) == DistinctKeys(s[..i + 1], key)
    ensures data[k := Lookup(data, k) + a] == Totals(s[..i + 1], key, f)
  {
    TotalsStep(s, i, key, f);
    TotalsDomain(s[..i], key, f, k);
  }

  /** `s.forEach(x => { data[key(x)] = (data[key(x)] || 0) + f(x); })` on a
      fresh object: `data` ends with the running total of each key, and
      `keys` with the order in which the entries were created, which is the
      order of `Object.keys(data)`. */
  method TotalsByKey<T, K(==,!new)>(s: seq<T>, key: T -> K, f: T -> real) returns (keys: seq<K>, data: map<K, real>)
    ensures keys == DistinctKeys(s, key)
    ensures data == Totals(s, key, f)
  {
    data := map[];
    keys := [];
    for i := 0 to |s|
      invariant keys == DistinctKeys(s[..i], key)
      invariant data == Totals(s[..i], key, f)
    {
      var k, a := key(s[i]), f(s[i]);
      TotalsAdvance(s, i, key, f, keys, data, k, a);
      keys := if k in data then keys else keys + [k];
      data := data[k := Lookup(data, k) + a];
    }
    assert s[..|s|] == s;
  }

  /** The dictionary has an entry exactly for the keys met. */
  lemma {:induction false} TotalsDomain<T, K(!new)>(s: seq<T>, key: T -> K, f: T -> real, k: K)
    ensures k in Totals(s, key, f) <==> k in DistinctKeys(s, key)
  {
    if s != [] {
      TotalsDomain(s[..|s| - 1], key, f, k);
    }
  }

  /** Each entry is the total of the elements with that key, selected by any
      test `p` that holds exactly for them; an absent entry reads as 0. */
  lemma {:induction false} TotalsEntry<T(!new), K(!new)>(s: seq<T>, key: T -> K, f: T -> real, k: K, p: T -> bool)
    requires forall x :: p(x) == (key(x) == k)
    ensures Lookup(Totals(s, key, f), k) == Sum(Filter(s, p), f)
  {
    if s != [] {
      TotalsEntry(s[..|s| - 1], key, f, k, p);
      SumFilterLast(s, p, f);
    }
  }

  /** Setting a key outside `ks` leaves their sum. */
  lemma {:induction false} ValuesSumFresh<K>(ks: seq<K>, m: map<K, real>, k: K, v: real)
    requires k !in ks
    ensures ValuesSum(ks, m[k := v]) == ValuesSum(ks, m)
  {
    if ks != [] {
      var init := ks[..|ks| - 1];
      assert forall c :: c in init ==> c in ks;
      ValuesSumFresh(init, m, k, v);
    }
  }

  /** Setting a key listed once in `ks` replaces its share of the sum. */
  lemma {:induction false} ValuesSumUpdate<K>(ks: seq<K>, m: map<K, real>, k: K, v: real)
    requires NoDuplicates(ks) && k in ks
    ensures ValuesSum(ks, m[k := v]) == ValuesSum(ks, m) - Lookup(m, k) + v
  {
    var init := ks[..|ks| - 1];
    var last := ks[|ks| - 1];
    assert NoDuplicates(init);
    if last == k {
      assert k !in init by {
        forall i | 0 <= i < |init| ensures init[i] != k { assert init[i] == ks[i]; }
      }
      ValuesSumFresh(init, m, k, v);
    } else {
      assert k in init by {
        var i :| 0 <= i < |ks| && ks[i] == k;
        assert init[i] == k;
      }
      ValuesSumUpdate(init, m, k, v);
    }
  }

  /** A new key at the end, with its entry, adds that entry to the sum. */
  lemma ValuesSumNew<K>(ks: seq<K>, m: map<K, real>, k: K, a: real)
    requires k !in ks && k !in m
    ensures ValuesSum(ks + [k], m[k := Lookup(m, k) + a]) == ValuesSum(ks, m) + a
  {
    ValuesSumFresh(ks, m, k, a);
    assert (ks + [k])[..|ks|] == ks;
  }

  /** The entries, taken in the order their keys were created, add up to the
      amounts of all the elements. */
  lemma {:induction false} TotalsSum<T, K(!new)>(s: seq<T>, key: T -> K, f: T -> real)
    ensures ValuesSum(DistinctKeys(s, key), Totals(s, key, f)) == Sum(s, f)
  {
    if s != [] {
      var init := s[..|s| - 1];
      var x := s[|s| - 1];
      TotalsSum(init, key, f);
      TotalsDomain(init, key, f, key(x));
      SumLast(s, f);
      var keys := DistinctKeys(init, key);
      var t := Totals(init, key, f);
      if key(x) in keys {
        ValuesSumUpdate(keys, t, key(x), Lookup(t, key(x)) + f(x));
      } else {
        ValuesSumNew(keys, t, key(x), f(x));
      }
    }
  }

  /** Counts depend only on the predicate's values. */
  lemma {:induction false} CountSame<T>(s: seq<T>, p: T -> bool, q: T -> bool)
    requires forall x :: p(x) == q(x)
    ensures Count(s, p) == Count(s, q)
  {
    if s != [] {
      CountSame(s[1..], p, q);
    }
  }

  /** A weaker predicate counts at least as many elements. */
  lemma {:induction false} CountMonotone<T>(s: seq<T>, p: T -> bool, q: T -> bool)
    requires forall x :: p(x) ==> q(x)
    ensures Count(s, p) <= Count(s, q)
  {
    if s != [] {
      CountMonotone(s[1..], p, q);
    }
  }

  /** A filter that rejects exactly the element at `i` removes that element
      and keeps the others in order. */
  lemma {:induction false} FilterRemovesOne<T(!new)>(s: seq<T>, p: T -> bool, i: nat)
    requires i < |s| && !p(s[i])
    requires forall j :: 0 <= j < |s| && j != i ==> p(s[j])
    ensures Filter(s, p) == s[..i] + s[i + 1..]
  {
    var u, v := s[..i], s[i..];
    assert s == u + v;
    FilterAppend(u, v, p);
    assert forall j :: 0 <= j < |u| ==> p(u[j]) by {
      forall j | 0 <= j < |u| ensures p(u[j]) { assert u[j] == s[j]; }
    }
    FilterKeepsAll(u, p);
    assert forall j :: 0 < j < |v| ==> p(v[j]) by {
      forall j | 0 < j < |v| ensures p(v[j]) { assert v[j] == s[i + j]; }
    }
    FilterRemovesHead(v, p);
    assert v[1..] == s[i + 1..];
  }

  /** Filtering distributes over concatenation. */
  lemma {:induction false} FilterAppend<T(!new)>(a: seq<T>, b: seq<T>, p: T -> bool)
    ensures Filter(a + b, p) == Filter(a, p) + Filter(b, p)
  {
    if a != [] {
      var h := if p(a[0]) then [a[0]] else [];
      assert (a + b)[0] == a[0];
      assert (a + b)[1..] == a[1..] + b;
      assert Filter(a + b, p) == h + Filter(a[1..] + b, p);
      FilterAppend(a[1..], b, p);
      assert Filter(a, p) == h + Filter(a[1..], p);
    } else {
      assert a + b == b;
    }
  }

  /** The last element's share of a filtered sum. */
  lemma SumFilterLast<T(!new)>(s: seq<T>, p: T -> bool, f: T -> real)
    requires s != []
    ensures Sum(Filter(s, p), f) == Sum(Filter(s[..|s| - 1], p), f) + (if p(s[|s| - 1]) then f(s[|s| - 1]) else 0.0)
  {
    var init := s[..|s| - 1];
    var x := s[|s| - 1];
    assert s == init + [x];
    FilterAppend(init, [x], p);
    SumAppend(Filter(init, p), Filter([x], p), f);
    assert Filter([x], p) == (if p(x) then [x] else []) + Filter([x][1..], p);
    assert [x][1..] == [];
    assert Sum([x], f) == f(x) + Sum([x][1..], f);
  }

  /** A filter that rejects only the head drops exactly the head. */
  lemma FilterRemovesHead<T(!new)>(s: seq<T>, p: T -> bool)
    requires s != [] && !p(s[0])
    requires forall j :: 0 < j < |s| ==> p(s[j])
    ensures Filter(s, p) == s[1..]
  {
    var t := s[1..];
    assert forall j :: 0 <= j < |t| ==> p(t[j]) by {
      forall j | 0 <= j < |t| ensures p(t[j]) { assert t[j] == s[j + 1]; }
    }
    FilterKeepsAll(t, p);
  }

  /** A filter that accepts every element is the identity. */
  lemma {:induction false} FilterKeepsAll<T(!new)>(s: seq<T>, p: T -> bool)
    requires forall j :: 0 <= j < |s| ==> p(s[j])
    ensures Filter(s, p) == s
  {
    if s != [] {
      FilterKeepsAll(s[1..], p);
      assert s == [s[0]] + s[1..];
    }
  }

  /** A filter that rejects every element leaves nothing. */
  lemma {:induction false} FilterDropsAll<T(!new)>(s: seq<T>, p: T -> bool)
    requires forall j :: 0 <= j < |s| ==> !p(s[j])
    ensures Filter(s, p) == []
  {
    if s != [] {
      FilterDropsAll(s[1..], p);
      assert !p(s[0]);
    }
  }

  /** The values a list holds. */
  function Elements<T>(s: seq<T>): set<T>
  {
    set x | x in s
  }

  /** Without duplicates, the length of a list is the number of values in it. */
  lemma {:induction false} NoDuplicatesCard<T>(s: seq<T>)
    requires NoDuplicates(s)
    ensures |Elements(s)| == |s|
  {
    if s != [] {
      NoDuplicatesCard(s[1..]);
      assert s[0] !in s[1..];
      assert Elements(s) == {s[0]} + Elements(s[1..]);
    }
  }

  /** A list holds at most as many values as it has positions. */
  lemma {:induction false} ElementsCard<T>(s: seq<T>)
    ensures |Elements(s)| <= |s|
  {
    if s != [] {
      ElementsCard(s[1..]);
      assert Elements(s) == {s[0]} + Elements(s[1..]);
    }
  }

  /** Reordering a list without duplicates gives a list without duplicates. */
  lemma NoDuplicatesPermutation<T>(a: seq<T>, b: seq<T>)
    requires NoDuplicates(a) && multiset(a) == multiset(b)
    ensures NoDuplicates(b)
  {
    NoDuplicatesCard(a);
    assert |a| == |multiset(a)| == |multiset(b)| == |b|;
    assert Elements(a) == Elements(b) by {
      assert forall x :: x in a <==> x in multiset(a);
      assert forall x :: x in b <==> x in multiset(b);
    }
    if !NoDuplicates(b) {
      var i, j :| 0 <= i < j < |b| && b[i] == b[j];
      var c := b[..j] + b[j + 1..];
      assert Elements(b) == Elements(c) by {
        assert forall x :: x in b && x != b[j] ==> x in c;
        assert b[i] == c[i];
      }
      ElementsCard(c);
      assert false;
    }
  }

  /** The test "carries key `k`". */
  function HasKey<T, K(==)>(key: T -> K, k: K): T -> bool
  {
    (x: T) => key(x) == k
  }

  /** One more element, for a key some earlier element carries: the key's
      first position stays, and the key's sum grows by the new element's
      value exactly when it carries the key. */
  lemma KeyAppendKnown<T(!new), K>(s: seq<T>, key: T -> K, x: T, k: K, f: T -> real)
    requires KeyIndex(s, key, k) >= 0
    ensures KeyIndex(s + [x], key, k) == KeyIndex(s, key, k)
    ensures (s + [x])[KeyIndex(s, key, k)] == s[KeyIndex(s, key, k)]
    ensures Sum(Filter(s + [x], HasKey(key, k)), f)
            == Sum(Filter(s, HasKey(key, k)), f) + (if key(x) == k then f(x) else 0.0)
  {
    KeyIndexAppend(s, key, x, k);
    var t := s + [x];
    assert t[..|t| - 1] == s;
    SumFilterLast(t, HasKey(key, k), f);
  }

  /** One more element, for a key no earlier element carries: the key is
      first carried by the new element, whose value is the key's sum. */
  lemma KeyAppendFresh<T(!new), K>(s: seq<T>, key: T -> K, x: T, f: T -> real)
    requires KeyIndex(s, key, key(x)) < 0
    ensures KeyIndex(s + [x], key, key(x)) == |s|
    ensures (s + [x])[|s|] == x
    ensures Sum(Filter(s + [x], HasKey(key, key(x))), f) == 0.0 + f(x)
  {
    KeyIndexAppend(s, key, x, key(x));
    var t := s + [x];
    assert t[..|t| - 1] == s;
    SumFilterLast(t, HasKey(key, key(x)), f);
    FilterDropsAll(s, HasKey(key, key(x)));
  }

  /** The test "does not carry key `k`". */
  function LacksKey<T, K(==)>(key: T -> K, k: K): T -> bool
  {
    (x: T) => key(x) != k
  }

  /** The sum, over the keys `ks`, of how many elements carry each key. */
  function KeyCounts<T, K(==)>(s: seq<T>, key: T -> K, ks: seq<K>): nat
  {
    if ks == [] then 0 else Count(s, HasKey(key, ks[0])) + KeyCounts(s, key, ks[1..])
  }

  lemma {:induction false} KeyCountsAppendKey<T, K>(s: seq<T>, key: T -> K, ks: seq<K>, k: K)
    ensures KeyCounts(s, key, ks + [k]) == KeyCounts(s, key, ks) + Count(s, HasKey(key, k))
  {
    if ks != [] {
      assert (ks + [k])[1..] == ks[1..] + [k];
      KeyCountsAppendKey(s, key, ks[1..], k);
    }
  }

  /** One more element adds one for each listed copy of its key. */
  lemma {:induction false} KeyCountsAppendElement<T, K>(s: seq<T>, key: T -> K, ks: seq<K>, x: T)
    ensures KeyCounts(s + [x], key, ks) == KeyCounts(s, key, ks) + Count(ks, (j: K) => j == key(x))
  {
    if ks != [] {
      KeyCountsAppendElement(s, key, ks[1..], x);
      CountAppend(s, [x], HasKey(key, ks[0]));
    }
  }

  /** A key listed once is counted once; a key not listed is not counted. */
  lemma {:induction false} CountKey<K>(ks: seq<K>, k: K)
    requires NoDuplicates(ks)
    ensures Count(ks, (j: K) => j == k) == if k in ks then 1 else 0
  {
    if ks != [] {
      CountKey(ks[1..], k);
      assert ks[0] !in ks[1..];
    }
  }

  /** Grouping by key partitions the list: the group sizes of the distinct
      keys add up to its length. */
  lemma {:induction false} PartitionByKeys<T, K(!new)>(s: seq<T>, key: T -> K)
    ensures KeyCounts(s, key, DistinctKeys(s, key)) == |s|
  {
    if s != [] {
      var init, x := s[..|s| - 1], s[|s| - 1];
      assert s == init + [x];
      var d := DistinctKeys(init, key);
      PartitionByKeys(init, key);
      KeyCountsAppendElement(init, key, d, x);
      CountKey(d, key(x));
      if key(x) !in d {
        KeyCountsAppendKey(s, key, d, key(x));
        CountAppend(init, [x], HasKey(key, key(x)));
        assert Count(init, HasKey(key, key(x))) == 0;
      }
    }
  }

  lemma {:induction false} KeyCountsOfNothing<T, K>(key: T -> K, ks: seq<K>)
    ensures KeyCounts([], key, ks) == 0
  {
    if ks != [] {
      KeyCountsOfNothing(key, ks[1..]);
    }
  }

  /** Counting over a duplicate-free list of keys that holds every element's
      key counts every element once. */
  lemma {:induction false} KeysCover<T, K>(s: seq<T>, key: T -> K, ks: seq<K>)
    requires NoDuplicates(ks) && forall i :: 0 <= i < |s| ==> key(s[i]) in ks
    ensures KeyCounts(s, key, ks) == |s|
  {
    if s == [] {
      KeyCountsOfNothing(key, ks);
    } else {
      var init, x := s[..|s| - 1], s[|s| - 1];
      assert s == init + [x];
      KeysCover(init, key, ks);
      KeyCountsAppendElement(init, key, ks, x);
      CountKey(ks, key(x));
    }
  }

  // ---------------------------------------------------------------------------
  // Keyed collections (a collection with a unique index: `_id`, `rollNo`, ...)
  // ---------------------------------------------------------------------------

  /** No two elements of `s` share a key (a unique index of the store). */
  predicate KeysUnique<T, K(==)>(s: seq<T>, key: T -> K)
  {
    forall i, j :: 0 <= i < j < |s| ==> key(s[i]) != key(s[j])
  }

  /** The keys present in `s`. */
  function KeySet<T, K>(s: seq<T>, key: T -> K): set<K>
  {
    set i | 0 <= i < |s| :: key(s[i])
  }

  /** `findOne({ key: k })`: the position of the first element with key `k`,
      or -1 when there is none. */
  function KeyIndex<T, K(==)>(s: seq<T>, key: T -> K, k: K): (i: int)
    ensures -1 <= i < |s|
    ensures i >= 0 ==> key(s[i]) == k && forall j :: 0 <= j < i ==> key(s[j]) != k
    ensures i == -1 <==> k !in KeySet(s, key)
    ensures i == -1 <==> forall j :: 0 <= j < |s| ==> key(s[j]) != k
  {
    if s == [] then -1
    else if key(s[0]) == k then 0
    else
      var i := KeyIndex(s[1..], key, k);
      assert k in KeySet(s[1..], key) ==> k in KeySet(s, key) by {
        if k in KeySet(s[1..], key) {
          var j :| 0 <= j < |s[1..]| && key(s[1..][j]) == k;
          assert key(s[j + 1]) == k;
        }
      }
      if i == -1 then -1 else i + 1
  }

  /** Appending keeps the first holder of a key; a key new to `s` is found
      at the appended element. */
  lemma KeyIndexAppend<T, K>(s: seq<T>, key: T -> K, x: T, k: K)
    ensures KeyIndex(s + [x], key, k) ==
      if KeyIndex(s, key, k) >= 0 then KeyIndex(s, key, k) else if key(x) == k then |s| else -1
  {
    var t := s + [x];
    var i := KeyIndex(s, key, k);
    var j := KeyIndex(t, key, k);
    assert forall a :: 0 <= a < |s| ==> t[a] == s[a];
    if i >= 0 {
      assert key(t[i]) == k;
    } else {
      assert forall a :: 0 <= a < |s| ==> key(s[a]) in KeySet(s, key);
      if key(x) == k {
        assert key(t[|s|]) == k;
      } else {
        assert forall a :: 0 <= a < |t| ==> key(t[a]) != k;
      }
    }
  }

  /** With unique keys the element holding a key is the one `KeyIndex` finds. */
  lemma KeyIndexUnique<T, K>(s: seq<T>, key: T -> K, j: nat)
    requires KeysUnique(s, key) && j < |s|
    ensures KeyIndex(s, key, key(s[j])) == j
  {
    assert forall a :: 0 <= a < j ==> key(s[a]) != key(s[j]);
  }

  /** An update that leaves every element without key `k` alone changes, in
      a collection with unique keys, at most the one element with that key. */
  lemma SameOffKey<T, K>(s: seq<T>, r: seq<T>, key: T -> K, k: K)
    requires KeysUnique(s, key) && |r| == |s|
    requires forall j :: 0 <= j < |s| && key(s[j]) != k ==> r[j] == s[j]
    ensures KeyIndex(s, key, k) < 0 ==> r == s
    ensures KeyIndex(s, key, k) >= 0 ==> r == s[KeyIndex(s, key, k) := r[KeyIndex(s, key, k)]]
  {
    var i := KeyIndex(s, key, k);
    if i < 0 {
      forall j | 0 <= j < |s|
        ensures r[j] == s[j]
      {
        assert key(s[j]) in KeySet(s, key);
      }
    } else {
      forall j | 0 <= j < |s| && j != i
        ensures r[j] == s[j]
      {
        KeyIndexUnique(s, key, j);
      }
    }
  }

  /** `deleteOne({ key: k })` on a collection: every element without that key. */
  function RemoveKey<T(!new), K(==)>(s: seq<T>, key: T -> K, k: K): (r: seq<T>)
    ensures k !in KeySet(r, key)
    ensures forall x :: x in r <==> x in s && key(x) != k
  {
    var r := Filter(s, LacksKey(key, k));
    assert forall j :: 0 <= j < |r| ==> key(r[j]) != k;
    r
  }

  /** With unique keys, removing a present key removes exactly the element
      holding it and keeps the others in order; removing an absent key
      changes nothing. */
  lemma RemoveKeyExactly<T(!new), K>(s: seq<T>, key: T -> K, k: K)
    requires KeysUnique(s, key)
    ensures KeysUnique(RemoveKey(s, key, k), key)
    ensures KeyIndex(s, key, k) == -1 ==> RemoveKey(s, key, k) == s
    ensures KeyIndex(s, key, k) >= 0 ==>
      var i := KeyIndex(s, key, k);
      RemoveKey(s, key, k) == s[..i] + s[i + 1..]
  {
    var p := LacksKey(key, k);
    var i := KeyIndex(s, key, k);
    if i < 0 {
      assert forall j :: 0 <= j < |s| ==> key(s[j]) in KeySet(s, key);
      FilterKeepsAll(s, p);
    } else {
      forall j | 0 <= j < |s| && j != i
        ensures p(s[j])
      {
        if j < i {
          assert key(s[j]) != key(s[i]);
        } else {
          assert key(s[i]) != key(s[j]);
        }
      }
      FilterRemovesOne(s, p, i);
      RemoveAtKeysUnique(s, key, i);
    }
  }

  /** Replacing an element by one with the same key keeps keys unique. */
  lemma ReplaceKeysUnique<T, K>(s: seq<T>, key: T -> K, i: nat, x: T)
    requires KeysUnique(s, key) && i < |s| && key(x) == key(s[i])
    ensures KeysUnique(s[i := x], key)
    ensures KeySet(s[i := x], key) == KeySet(s, key)
  {
    var r := s[i := x];
    assert forall j :: 0 <= j < |r| ==> key(r[j]) == key(s[j]);
    assert KeySet(r, key) == KeySet(s, key) by {
      forall k ensures k in KeySet(r, key) <==> k in KeySet(s, key) {
        if k in KeySet(s, key) {
          var j :| 0 <= j < |s| && key(s[j]) == k;
          assert key(r[j]) == k;
        }
      }
    }
  }

  /** Replacing the element at `i` leaves every value other than the old
      and the new one where it was. */
  lemma ReplaceKeepsOthers<T>(s: seq<T>, i: nat, x: T, d: T)
    requires i < |s| && d != s[i] && d != x
    ensures d in s[i := x] <==> d in s
  {
    var r := s[i := x];
    if d in s {
      var j :| 0 <= j < |s| && s[j] == d;
      assert r[j] == d;
    }
    if d in r {
      var j :| 0 <= j < |r| && r[j] == d;
      assert s[j] == d;
    }
  }

  /** Removing the element at `i` keeps keys unique. */
  lemma RemoveAtKeysUnique<T, K>(s: seq<T>, key: T -> K, i: nat)
    requires KeysUnique(s, key) && i < |s|
    ensures KeysUnique(s[..i] + s[i + 1..], key)
  {
    var r := s[..i] + s[i + 1..];
    forall a, b | 0 <= a < b < |r|
      ensures key(r[a]) != key(r[b])
    {
      var a', b' := if a < i then a else a + 1, if b < i then b else b + 1;
      assert r[a] == s[a'] && r[b] == s[b'] && a' < b';
    }
  }

  /** Appending an element with a new key keeps keys unique. */
  lemma AppendKeysUnique<T, K>(s: seq<T>, key: T -> K, x: T)
    requires KeysUnique(s, key) && key(x) !in KeySet(s, key)
    ensures KeysUnique(s + [x], key)
    ensures KeySet(s + [x], key) == KeySet(s, key) + {key(x)}
  {
    var r := s + [x];
    assert forall j :: 0 <= j < |s| ==> r[j] == s[j] && key(s[j]) in KeySet(s, key);
    assert KeySet(r, key) <= KeySet(s, key) + {key(x)} by {
      forall k | k in KeySet(r, key) ensures k in KeySet(s, key) + {key(x)} {
        var j :| 0 <= j < |r| && key(r[j]) == k;
        if j < |s| {
          assert key(s[j]) == k;
        }
      }
    }
    assert KeySet(s, key) + {key(x)} <= KeySet(r, key) by {
      forall k | k in KeySet(s, key) + {key(x)} ensures k in KeySet(r, key) {
        if k == key(x) {
          assert key(r[|s|]) == k;
        } else {
          var j :| 0 <= j < |s| && key(s[j]) == k;
          assert key(r[j]) == k;
        }
      }
    }
  }
}
