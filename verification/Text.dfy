/** The string operations of Go's standard library, and of kube-vip's own helpers, that the modelled code relies on. */
module Text {

  datatype Option<+T> = None | Some(value: T)

  /** The position of the first `c`, or the length when there is none. */
  function IndexOf(s: string, c: char): (i: nat)
    ensures i <= |s|
    ensures i < |s| ==> s[i] == c
    ensures c !in s[..i]
    ensures c in s <==> i < |s|
  {
    if s == [] || s[0] == c then 0 else 1 + IndexOf(s[1..], c)
  }

  lemma IndexOfPrefix(a: string, c: char, b: string)
    requires c !in a
    ensures IndexOf(a + [c] + b, c) == |a|
  {
    var s := a + [c] + b;
    assert s[|a|] == c && forall k :: 0 <= k < |a| ==> s[k] == a[k];
  }

  /** An address without its prefix length. */
  function StripCIDR(address: string): string { address[..IndexOf(address, '/')] }

  /** A prefix length goes, and an address without one stays. */
  lemma Stripped(address: string, prefix: string)
    requires '/' !in address
    ensures StripCIDR(address) == address && StripCIDR(address + "/" + prefix) == address
  {
    IndexOfPrefix(address, '/', prefix);
    assert "/" == ['/'];
    assert address[..|address|] == address;
  }

  /** strings.Split with a one-character separator. */
  function Split(s: string, c: char): (parts: seq<string>)
    ensures parts != []
  {
    if s == [] then [[]]
    else Attach(s[0], Split(s[1..], c), c)
  }

  /** strings.Join with a one-character separator. */
  function Join(parts: seq<string>, c: char): string
  {
    if parts == [] then []
    else if |parts| == 1 then parts[0]
    else parts[0] + [c] + Join(parts[1..], c)
  }

  lemma {:induction false} SplitParts(s: string, c: char)
    ensures forall p :: p in Split(s, c) ==> c !in p
  {
    if s == [] {
    } else {
      SplitParts(s[1..], c);
    }
  }

  /** The parts hold no characters that the text does not have. */
  lemma {:induction false} SplitChars(s: string, c: char, d: char)
    requires d !in s
    ensures forall p :: p in Split(s, c) ==> d !in p
  {
    if s == [] {
    } else {
      SplitChars(s[1..], c, d);
    }
  }

  /** With more than one part, the text starts with the first part and a separator. */
  lemma {:induction false} SplitFirst(s: string, c: char)
    ensures Split(s, c)[0] <= s
    ensures |Split(s, c)| > 1 ==> Split(s, c)[0] + [c] <= s
  {
    if s == [] || s[0] == c {
      assert Split(s, c)[0] == [];
    } else {
      SplitFirst(s[1..], c);
      assert s == [s[0]] + s[1..];
    }
  }

  /** Joining brings in no characters but those of the parts and the separator. */
  lemma {:induction false} JoinChars(parts: seq<string>, c: char, d: char)
    requires d != c && forall p :: p in parts ==> d !in p
    ensures d !in Join(parts, c)
    decreases |parts|
  {
    if |parts| <= 1 {
      assert parts == [] || Join(parts, c) == parts[0];
    } else {
      JoinChars(parts[1..], c, d);
    }
  }

  lemma {:induction false} SplitWhole(s: string, c: char)
    requires c !in s
    ensures Split(s, c) == [s]
  {
    if s == [] {
    } else {
      SplitWhole(s[1..], c);
      assert s == [s[0]] + s[1..];
    }
  }

  lemma SplitAround(a: string, c: char, b: string)
    requires c !in a
    ensures Split(a + [c] + b, c) == [a] + Split(b, c)
  {
    SplitWhole(a, c);
    SplitAppend(a, c, b);
  }

  lemma SplitAt(s: string, c: char, i: nat)
    requires i < |s| && s[i] == c && c !in s[..i]
    ensures Split(s, c) == [s[..i]] + Split(s[i + 1..], c)
  {
    var first, rest := s[..i], s[i + 1..];
    SplitAround(first, c, rest);
    assert s == first + [c] + rest;
  }

  /** The first part ends at the first separator, and the rest is split in turn. */
  lemma SplitAtFirst(s: string, c: char)
    ensures Split(s, c)[0] == s[..IndexOf(s, c)]
    ensures c in s ==> Split(s, c) == [s[..IndexOf(s, c)]] + Split(s[IndexOf(s, c) + 1..], c)
    ensures |Split(s, c)| > 1 <==> c in s
  {
    var i := IndexOf(s, c);
    if c in s {
      SplitAt(s, c, i);
    } else {
      SplitWhole(s, c);
      assert s[..i] == s;
    }
  }

  /** A text is cut at its last separator in only one way. */
  lemma LastSeparator(a: string, b: string, c: char, a': string, b': string)
    requires c !in b && c !in b' && a + [c] + b == a' + [c] + b'
    ensures a == a' && b == b'
  {
    var s := a + [c] + b;
    assert s[|a|] == c && s[|a'|] == c;
    assert s[|a| + 1..] == b && s[|a'| + 1..] == b';
    assert s[..|a|] == a && s[..|a'|] == a';
  }

  /** The parts of a text one character longer at the front. */
  function Attach(first: char, parts: seq<string>, c: char): (r: seq<string>)
    requires parts != []
    ensures r != []
  {
    if first == c then [[]] + parts else [[first] + parts[0]] + parts[1..]
  }

  lemma SplitHead(first: char, s: string, c: char)
    ensures Split([first] + s, c) == Attach(first, Split(s, c), c)
  {
    assert ([first] + s)[1..] == s;
  }

  lemma AttachAppend(first: char, parts: seq<string>, more: seq<string>, c: char)
    requires parts != []
    ensures Attach(first, parts + more, c) == Attach(first, parts, c) + more
  {
    assert (parts + more)[0] == parts[0] && (parts + more)[1..] == parts[1..] + more;
  }

  /** Splitting distributes over concatenation at a separator. */
  lemma {:induction false} SplitAppend(a: string, c: char, b: string)
    ensures Split(a + [c] + b, c) == Split(a, c) + Split(b, c)
  {
    if a == [] {
      assert (a + [c] + b)[1..] == b;
    } else {
      SplitAppend(a[1..], c, b);
      assert a + [c] + b == [a[0]] + (a[1..] + [c] + b);
      SplitHead(a[0], a[1..] + [c] + b, c);
      AttachAppend(a[0], Split(a[1..], c), Split(b, c), c);
    }
  }

  /** Fields without the separator survive joining and splitting. */
  lemma {:induction false} SplitJoin(parts: seq<string>, c: char)
    requires parts != [] && forall p :: p in parts ==> c !in p
    ensures Split(Join(parts, c), c) == parts
    decreases |parts|
  {
    SplitWhole(parts[0], c);
    if |parts| == 1 {
      assert parts == [parts[0]];
    } else {
      SplitJoin(parts[1..], c);
      SplitAppend(parts[0], c, Join(parts[1..], c));
    }
  }

  // ---- Decimal numbers -----------------------------------------------------

  predicate IsDigit(c: char) { '0' <= c <= '9' }

  predicate AllDigits(s: string) { forall i :: 0 <= i < |s| ==> IsDigit(s[i]) }

  /** fmt's %d for a natural number. */
  function Decimal(n: nat): (s: string)
    ensures s != [] && AllDigits(s)
  {
    if n < 10 then ['0' + n as char]
    else Decimal(n / 10) + ['0' + (n % 10) as char]
  }

  function DigitValue(c: char): nat
    requires IsDigit(c)
  {
    (c - '0') as nat
  }

  function Value(s: string): nat
    requires AllDigits(s)
  {
    if s == [] then 0 else 10 * Value(s[..|s| - 1]) + DigitValue(s[|s| - 1])
  }

  /** strconv.ParseUint in base ten: digits only, not empty, and below the limit. */
  function ParseUint(s: string, limit: nat): Option<nat>
  {
    if s == [] || !AllDigits(s) || Value(s) >= limit then None else Some(Value(s))
  }

  lemma {:induction false} ValueDecimal(n: nat)
    ensures Value(Decimal(n)) == n
  {
    if n < 10 {
      assert Decimal(n)[..0] == [];
      assert Value(Decimal(n)) == DigitValue(Decimal(n)[0]);
    } else {
      ValueDecimal(n / 10);
      var s := Decimal(n);
      assert s[..|s| - 1] == Decimal(n / 10);
    }
  }

  lemma ParseDecimal(n: nat, limit: nat)
    requires n < limit
    ensures ParseUint(Decimal(n), limit) == Some(n)
  {
    ValueDecimal(n);
  }

  lemma DecimalInjective(m: nat, n: nat)
    ensures Decimal(m) == Decimal(n) <==> m == n
  {
    ValueDecimal(m);
    ValueDecimal(n);
  }

  // ---- White space -----------------------------------------------------------

  /** unicode.IsSpace. */
  predicate IsSpace(c: char)
  {
    || '\U{9}' <= c <= '\U{D}' || c == ' ' || c == '\U{85}' || c == '\U{A0}' || c == '\U{1680}'
    || '\U{2000}' <= c <= '\U{200A}' || c == '\U{2028}' || c == '\U{2029}' || c == '\U{202F}'
    || c == '\U{205F}' || c == '\U{3000}'
  }

  /** strings.TrimSpace. */
  function TrimSpace(s: string): (t: string)
    ensures t == [] || (!IsSpace(t[0]) && !IsSpace(t[|t| - 1]))
  {
    if s == [] then []
    else if IsSpace(s[0]) then TrimSpace(s[1..])
    else if IsSpace(s[|s| - 1]) then TrimSpace(s[..|s| - 1])
    else s
  }

  predicate AllSpaces(s: string) { forall i :: 0 <= i < |s| ==> IsSpace(s[i]) }

  /** The text neither begins nor ends with white space. */
  predicate Trimmed(t: string) { t == [] || (!IsSpace(t[0]) && !IsSpace(t[|t| - 1])) }

  lemma {:induction false} TrimsBefore(left: string, s: string)
    requires AllSpaces(left)
    ensures TrimSpace(left + s) == TrimSpace(s)
  {
    if left == [] {
      assert left + s == s;
    } else {
      TrimsBefore(left[1..], s);
      assert (left + s)[0] == left[0] && (left + s)[1..] == left[1..] + s;
    }
  }

  lemma {:induction false} TrimsAfter(t: string, right: string)
    requires t != [] && Trimmed(t) && AllSpaces(right)
    ensures TrimSpace(t + right) == t
    decreases |right|
  {
    var s, n := t + right, |right| - 1;
    if right == [] {
      assert s == t;
    } else {
      TrimsAfter(t, right[..n]);
      assert s[0] == t[0] && s[|s| - 1] == right[n] && s[..|s| - 1] == t + right[..n];
    }
  }

  /** Exactly the surrounding white space goes: what is between is kept as it is. */
  lemma TrimsAround(left: string, t: string, right: string)
    requires AllSpaces(left) && Trimmed(t) && AllSpaces(right)
    ensures TrimSpace(left + t + right) == t
  {
    if t == [] {
      TrimsBefore(left + right, []);
      assert left + t + right == (left + right) + [];
    } else {
      TrimsAfter(t, right);
      TrimsBefore(left, t + right);
      assert left + t + right == left + (t + right);
    }
  }

  // ---- Order -------------------------------------------------------------------

  /** strings.Compare(a, b) < 0. */
  predicate Before(a: string, b: string)
  {
    b != [] && (a == [] || a[0] < b[0] || (a[0] == b[0] && Before(a[1..], b[1..])))
  }

  /** The texts agree up to `k`, where the first ends or has the smaller character. */
  predicate DiffersAt(a: string, b: string, k: nat) {
    k <= |a| && k < |b| && (forall i :: 0 <= i < k ==> a[i] == b[i]) && (k == |a| || a[k] < b[k])
  }

  /** The order is that of a dictionary. */
  lemma {:induction false} BeforeLexicographic(a: string, b: string)
    ensures Before(a, b) <==> exists k: nat :: DiffersAt(a, b, k)
  {
    if a == [] || b == [] || a[0] != b[0] {
      if Before(a, b) {
        assert DiffersAt(a, b, 0);
      }
    } else {
      BeforeLexicographic(a[1..], b[1..]);
      if k: nat :| DiffersAt(a[1..], b[1..], k) {
        assert forall i :: 0 < i < k + 1 ==> a[i] == a[1..][i - 1] && b[i] == b[1..][i - 1];
        assert DiffersAt(a, b, k + 1);
      }
      if k: nat :| DiffersAt(a, b, k) {
        assert k > 0 && DiffersAt(a[1..], b[1..], k - 1);
      }
    }
  }

  lemma {:induction false} BeforeTotal(a: string, b: string)
    ensures Before(a, b) || Before(b, a) <==> a != b
    ensures !(Before(a, b) && Before(b, a))
  {
    if a != [] && b != [] && a[0] == b[0] {
      BeforeTotal(a[1..], b[1..]);
      assert a == [a[0]] + a[1..] && b == [b[0]] + b[1..];
    }
  }

  lemma {:induction false} BeforeTransitive(a: string, b: string, c: string)
    requires Before(a, b) && Before(b, c)
    ensures Before(a, c)
  {
    if a != [] && a[0] == b[0] == c[0] {
      BeforeTransitive(a[1..], b[1..], c[1..]);
    }
  }
}
