/** Account keys with the order of a Rust `BTreeMap<Pubkey, _>`: 32 bytes, compared lexicographically. */
module KeyOrder {

  type u8 = x: int | 0 <= x < 0x100
  type Pubkey = k: seq<u8> | |k| == 32 witness seq(32, _ => 0)

  predicate Less(a: seq<int>, b: seq<int>) {
    if a == [] || b == [] then |a| < |b|
    else a[0] < b[0] || (a[0] == b[0] && Less(a[1..], b[1..]))
  }

  /** `k` is the first place where the two differ, and `a` is smaller there. */
  ghost predicate SmallerAt(a: seq<int>, b: seq<int>, k: nat) {
    k < |a| && k < |b| && a[..k] == b[..k] && a[k] < b[k]
  }

  /** The order decides at the first difference, and puts a proper prefix first. */
  lemma {:induction false} LessExactly(a: seq<int>, b: seq<int>)
    ensures Less(a, b) <==> (exists k: nat :: SmallerAt(a, b, k)) || (|a| < |b| && a == b[..|a|])
  {
    if a != [] && b != [] {
      LessExactly(a[1..], b[1..]);
      if a[0] < b[0] {
        assert SmallerAt(a, b, 0);
      } else if a[0] == b[0] {
        forall k: nat ensures SmallerAt(a, b, k + 1) <==> SmallerAt(a[1..], b[1..], k) {
          SmallerCons(a, b, k);
        }
        forall k: nat | SmallerAt(a, b, k) ensures SmallerAt(a[1..], b[1..], k - 1) {
        }
        if |a| < |b| {
          assert b[..|a|] == [b[0]] + b[1..][..|a| - 1] && a == [a[0]] + a[1..];
        }
      }
    }
  }

  lemma SmallerCons(a: seq<int>, b: seq<int>, k: nat)
    requires a != [] && b != [] && a[0] == b[0]
    ensures SmallerAt(a, b, k + 1) <==> SmallerAt(a[1..], b[1..], k)
  {
    if k < |a| - 1 && k < |b| - 1 {
      assert a[..k + 1] == [a[0]] + a[1..][..k] && b[..k + 1] == [b[0]] + b[1..][..k];
      assert a[..k + 1] == b[..k + 1] ==> a[1..][..k] == a[..k + 1][1..] == b[..k + 1][1..] == b[1..][..k];
    }
  }

  lemma {:induction false} LessTransitive(a: seq<int>, b: seq<int>, c: seq<int>)
    requires Less(a, b) && Less(b, c)
    ensures Less(a, c)
  {
    if a != [] && b != [] && c != [] && a[0] == b[0] == c[0] {
      LessTransitive(a[1..], b[1..], c[1..]);
    }
  }

  lemma {:induction false} LessIrreflexive(a: seq<int>)
    ensures !Less(a, a)
  {
    if a != [] {
      LessIrreflexive(a[1..]);
    }
  }

  lemma {:induction false} LessTotal(a: seq<int>, b: seq<int>)
    ensures a == b || Less(a, b) || Less(b, a)
  {
    if a != [] && b != [] && a[0] == b[0] {
      LessTotal(a[1..], b[1..]);
      if a[1..] == b[1..] {
        assert a == [a[0]] + a[1..] == [b[0]] + b[1..] == b;
      }
    }
  }

  function Elements<T>(s: seq<T>): set<T> {
    set x | x in s
  }

  ghost predicate Distinct<T>(s: seq<T>) {
    forall i, j :: 0 <= i < j < |s| ==> s[i] != s[j]
  }

  /** Where the two keys first differ, `a` has the smaller byte. */
  ghost predicate Smaller(a: Pubkey, b: Pubkey) {
    exists k: nat :: SmallerAt(a, b, k)
  }

  ghost predicate Ascending(s: seq<Pubkey>) {
    forall i, j :: 0 <= i < j < |s| ==> Smaller(s[i], s[j])
  }

  /** Keys are equally long, so for them the order is decided by a byte. */
  lemma SmallerExactly(a: Pubkey, b: Pubkey)
    ensures Less(a, b) <==> Smaller(a, b)
  {
    LessExactly(a, b);
  }

  lemma AscendingDistinct(s: seq<Pubkey>)
    requires Ascending(s)
    ensures Distinct(s)
  {
    forall i, j | 0 <= i < j < |s| ensures s[i] != s[j] {
      SmallerExactly(s[i], s[j]);
      LessIrreflexive(s[i]);
    }
  }

  /** A set of keys has one ascending listing. */
  lemma {:induction false} AscendingUnique(s: seq<Pubkey>, t: seq<Pubkey>)
    requires Ascending(s) && Ascending(t) && Elements(s) == Elements(t)
    ensures s == t
  {
    AscendingDistinct(s);
    AscendingDistinct(t);
    DistinctCount(s);
    DistinctCount(t);
    if s != [] {
      assert s[0] in Elements(t) && t[0] in Elements(s);
      if s[0] != t[0] {
        SmallerExactly(s[0], t[0]);
        SmallerExactly(t[0], s[0]);
        assert Less(t[0], s[0]);
        assert Less(s[0], t[0]);
        LessTransitive(s[0], t[0], s[0]);
        LessIrreflexive(s[0]);
      }
      assert Elements(s[1..]) == Elements(s) - {s[0]};
      assert Elements(t[1..]) == Elements(t) - {t[0]};
      AscendingUnique(s[1..], t[1..]);
    }
  }

  lemma AscendingCons(k: Pubkey, s: seq<Pubkey>)
    requires Ascending(s) && forall x :: x in s ==> Less(k, x)
    ensures Ascending([k] + s) && Elements([k] + s) == Elements(s) + {k}
  {
    forall x | x in s ensures Smaller(k, x) {
      SmallerExactly(k, x);
    }
  }

  lemma {:induction false} DistinctCount<T>(s: seq<T>)
    requires Distinct(s)
    ensures |Elements(s)| == |s|
  {
    if s != [] {
      assert Elements(s) == Elements(s[1..]) + {s[0]};
      assert s[0] !in Elements(s[1..]);
      DistinctCount(s[1..]);
    }
  }

  lemma DistinctConcat<T>(s: seq<T>, t: seq<T>)
    requires Distinct(s) && Distinct(t) && Elements(s) !! Elements(t)
    ensures Distinct(s + t) && Elements(s + t) == Elements(s) + Elements(t)
  {
    forall i, j | 0 <= i < |s| && 0 <= j < |t| ensures s[i] != t[j] {
      assert s[i] in Elements(s) && t[j] in Elements(t);
    }
  }
}
