/** The order in which the subphases of a phase are run
    (`subphase_sort_key` in src/phase_manager.py): an identifier
    `"<line>-<segment>"` is ordered by its two numbers, read with Python's
    `int()`, and an identifier that does not parse sorts as (0, 0). */
module SubphaseOrder {
  import opened Optional
  import opened Text

  predicate IsDigit(ch: char) {
    '0' <= ch <= '9'
  }

  /** The digits of a decimal literal as `int()` accepts them: at least one
      digit, single underscores allowed between digits. */
  predicate ValidDigits(t: string) {
    |t| > 0 && IsDigit(t[0]) && IsDigit(t[|t| - 1])
    && (forall i :: 0 <= i < |t| ==> IsDigit(t[i]) || t[i] == '_')
    && (forall i :: 0 <= i < |t| - 1 ==> t[i] == '_' ==> IsDigit(t[i + 1]))
  }

  /** The value of a digit string, underscores skipped. */
  function DigitsValue(t: string): nat
    decreases |t|
  {
    if |t| == 0 then 0
    else if IsDigit(t[|t| - 1]) then DigitsValue(t[..|t| - 1]) * 10 + (t[|t| - 1] as int - '0' as int)
    else DigitsValue(t[..|t| - 1])
  }

  /** Python's `int(s)` in base 10 on ASCII text: surrounding whitespace is
      ignored, one optional sign, then the digits. `None` is the
      `ValueError`. */
  function ParseInt(s: string): (r: Option<int>)
    ensures r.Some? ==> Strip(s) != ""
    ensures r.Some? && r.value < 0 ==> Strip(s)[0] == '-'
  {
    var t := Strip(s);
    if |t| > 0 && (t[0] == '+' || t[0] == '-') then
      if ValidDigits(t[1..]) then
        Some(if t[0] == '-' then -(DigitsValue(t[1..]) as int) else DigitsValue(t[1..]))
      else None
    else if ValidDigits(t) then Some(DigitsValue(t))
    else None
  }

  function DigitChar(d: nat): (ch: char)
    requires d < 10
    ensures IsDigit(ch) && ch as int - '0' as int == d
  {
    ('0' as int + d) as char
  }

  /** The decimal text of a natural number, as `str(n)` writes it. */
  function NatToString(n: nat): (s: string)
    ensures |s| > 0
    ensures forall i :: 0 <= i < |s| ==> IsDigit(s[i])
    decreases n
  {
    if n < 10 then [DigitChar(n)] else NatToString(n / 10) + [DigitChar(n % 10)]
  }

  /** Reading back the decimal text of a number gives the number. */
  lemma {:induction false} NatToStringValue(n: nat)
    ensures DigitsValue(NatToString(n)) == n
    decreases n
  {
    var s := NatToString(n);
    if n < 10 {
      assert s[..0] == [];
    } else {
      assert s[..|s| - 1] == NatToString(n / 10);
      NatToStringValue(n / 10);
    }
  }

  /** The decimal text of a number is a valid digit string. */
  lemma NatToStringValid(n: nat)
    ensures ValidDigits(NatToString(n))
  {
    var d := NatToString(n);
    assert IsDigit(d[0]) && IsDigit(d[|d| - 1]);
  }

  /** `int()` of a digit string, surrounded by any whitespace, is its
      decimal value. */
  lemma ParseIntUnsigned(s: string)
    requires ValidDigits(Strip(s))
    ensures ParseInt(s) == Some(DigitsValue(Strip(s)) as int)
  {
  }

  /** `int()` accepts only a digit string, optionally after a sign, once
      surrounding whitespace is stripped. */
  lemma ParseIntAcceptsDigits(s: string)
    ensures ParseInt(s).Some? ==>
              ValidDigits(Strip(s))
              || (|Strip(s)| > 0 && Strip(s)[0] in "+-" && ValidDigits(Strip(s)[1..]))
  {
  }

  /** `int()` of a sign followed by a digit string, surrounded by any
      whitespace, is the signed decimal value. */
  lemma ParseIntSigned(s: string)
    requires |Strip(s)| > 0 && Strip(s)[0] in "+-" && ValidDigits(Strip(s)[1..])
    ensures ParseInt(s) == Some(if Strip(s)[0] == '-' then -(DigitsValue(Strip(s)[1..]) as int)
                                else DigitsValue(Strip(s)[1..]) as int)
  {
  }

  /** `int(str(n)) == n`. */
  lemma ParseIntOfNat(n: nat)
    ensures ParseInt(NatToString(n)) == Some(n)
  {
    var d := NatToString(n);
    NatToStringValid(n);
    NatToStringValue(n);
    assert !IsSpace(d[0]) && !IsSpace(d[|d| - 1]);
    assert Strip(d) == d;
    ParseIntUnsigned(d);
  }

  /** `subphase_sort_key`: an identifier without a `-`, or whose first two
      `-`-separated parts are not both integers, gets the key (0, 0);
      otherwise the key is the two integers. */
  function SortKey(id: string): (k: (int, int))
    ensures '-' !in id ==> k == (0, 0)
    ensures (|Split(id, '-')| < 2 || ParseInt(Split(id, '-')[0]).None?
             || ParseInt(Split(id, '-')[1]).None?) ==> k == (0, 0)
    ensures |Split(id, '-')| >= 2 && ParseInt(Split(id, '-')[0]).Some?
            && ParseInt(Split(id, '-')[1]).Some? ==>
              k == (ParseInt(Split(id, '-')[0]).value, ParseInt(Split(id, '-')[1]).value)
  {
    var parts := Split(id, '-');
    if |parts| < 2 then (0, 0)
    else
      match (ParseInt(parts[0]), ParseInt(parts[1]))
      case (Some(a), Some(b)) => (a, b)
      case _ => (0, 0)
  }

  /** The key of a well-formed identifier is its two numbers. */
  lemma SortKeyOfIdentifier(a: nat, b: nat)
    ensures SortKey(NatToString(a) + "-" + NatToString(b)) == (a, b)
  {
    var x, y := NatToString(a), NatToString(b);
    assert '-' !in x by {
      forall i | 0 <= i < |x| ensures x[i] != '-' {
        assert IsDigit(x[i]);
      }
    }
    assert '-' !in y by {
      forall i | 0 <= i < |y| ensures y[i] != '-' {
        assert IsDigit(y[i]);
      }
    }
    assert x + "-" + y == x + ['-'] + y;
    SplitPrefix(x, y, '-');
    assert Split(y, '-') == [y] by {
      var p := Split(y, '-');
      assert |p| == 1;
      assert Join(p, '-') == p[0];
    }
    ParseIntOfNat(a);
    ParseIntOfNat(b);
  }

  /** Python's tuple order on keys. */
  predicate KeyLe(k1: (int, int), k2: (int, int)) {
    k1.0 < k2.0 || (k1.0 == k2.0 && k1.1 <= k2.1)
  }

  /** Ordered by the given key, equal keys allowed in any order. */
  predicate SortedBy(ids: seq<string>, key: string -> (int, int)) {
    forall i, j :: 0 <= i < j < |ids| ==> KeyLe(key(ids[i]), key(ids[j]))
  }

  predicate Sorted(ids: seq<string>) {
    SortedBy(ids, SortKey)
  }

  /** Inserts `id` after every identifier whose key is not greater. */
  function InsertBy(id: string, ids: seq<string>, key: string -> (int, int)): (r: seq<string>)
    requires SortedBy(ids, key)
    ensures SortedBy(r, key)
    ensures multiset(r) == multiset(ids) + multiset{id}
    decreases |ids|
  {
    if |ids| == 0 then [id]
    else if KeyLe(key(ids[|ids| - 1]), key(id)) then ids + [id]
    else
      var last := ids[|ids| - 1];
      var init := ids[..|ids| - 1];
      var rest := InsertBy(id, init, key);
      assert ids == init + [last];
      assert forall i :: 0 <= i < |init| ==> KeyLe(key(init[i]), key(last));
      BelowLast(rest, init, id, last, key);
      AppendSorted(rest, last, key);
      rest + [last]
  }

  /** Every element of a permutation of `init` plus `id` has a key not
      above that of `last` when all of `init` and `id` do. */
  lemma BelowLast(rest: seq<string>, init: seq<string>, id: string, last: string,
                  key: string -> (int, int))
    requires multiset(rest) == multiset(init) + multiset{id}
    requires forall i :: 0 <= i < |init| ==> KeyLe(key(init[i]), key(last))
    requires !KeyLe(key(last), key(id))
    ensures forall i :: 0 <= i < |rest| ==> KeyLe(key(rest[i]), key(last))
  {
    forall i | 0 <= i < |rest|
      ensures KeyLe(key(rest[i]), key(last))
    {
      assert rest[i] in multiset(rest);
      if rest[i] != id {
        assert rest[i] in multiset(init);
        var j :| 0 <= j < |init| && init[j] == rest[i];
      }
    }
  }

  /** Appending an element whose key is not below any key of a sorted
      sequence keeps it sorted. */
  lemma AppendSorted(xs: seq<string>, x: string, key: string -> (int, int))
    requires SortedBy(xs, key)
    requires forall i :: 0 <= i < |xs| ==> KeyLe(key(xs[i]), key(x))
    ensures SortedBy(xs + [x], key)
  {
    var ys := xs + [x];
    forall i, j | 0 <= i < j < |ys|
      ensures KeyLe(key(ys[i]), key(ys[j]))
    {
      assert ys[i] == xs[i];
      if j < |xs| {
        assert ys[j] == xs[j];
      }
    }
  }

  /** Insertion sort by the given key. */
  function SortBy(ids: seq<string>, key: string -> (int, int)): (r: seq<string>)
    ensures SortedBy(r, key)
    ensures multiset(r) == multiset(ids)
    decreases |ids|
  {
    if |ids| == 0 then []
    else
      assert ids == ids[..|ids| - 1] + [ids[|ids| - 1]];
      InsertBy(ids[|ids| - 1], SortBy(ids[..|ids| - 1], key), key)
  }

  /** `sorted(keys, key=subphase_sort_key)`: the identifiers in key order,
      each exactly as often as in the input. */
  function SortByKey(ids: seq<string>): (r: seq<string>)
    ensures Sorted(r)
    ensures multiset(r) == multiset(ids)
    ensures |r| == |ids|
  {
    var r := SortBy(ids, SortKey);
    assert |r| == |multiset(r)| == |multiset(ids)| == |ids|;
    r
  }
}
