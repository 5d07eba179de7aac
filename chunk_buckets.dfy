/**
 * The `big_transactions` dictionary: accepted sequences counted per chunk-count key,
 * `"<n> Chunks"` for n up to 10 and `">10 Chunks"` beyond.
 */
module ChunkBuckets {

  function DigitChar(d: nat): (c: char)
    requires d < 10
    ensures '0' <= c <= '9'
  {
    (48 + d) as char
  }

  /** Python's `str(n)` for a natural number: its decimal digits, without leading zeros. */
  function DecimalString(n: nat): (r: string)
    ensures |r| >= 1 && IsDecimal(r)
    ensures r[0] == '0' <==> n == 0
    ensures |r| == 1 <==> n < 10
    decreases n
  {
    if n < 10 then [DigitChar(n)] else DecimalString(n / 10) + [DigitChar(n % 10)]
  }

  predicate IsDecimal(r: string) {
    forall i :: 0 <= i < |r| ==> '0' <= r[i] <= '9'
  }

  /** The number a string of decimal digits denotes, read most significant digit first. */
  function DecimalValue(r: string): nat
    requires IsDecimal(r)
  {
    if r == [] then 0 else 10 * DecimalValue(r[..|r| - 1]) + (r[|r| - 1] as int - 48)
  }

  /** Reading back the decimal string of a number gives that number. */
  lemma {:induction false} DecimalRoundTrip(n: nat)
    ensures DecimalValue(DecimalString(n)) == n
    decreases n
  {
    var r := DecimalString(n);
    if n >= 10 {
      DecimalRoundTrip(n / 10);
      assert r[..|r| - 1] == DecimalString(n / 10);
    }
  }

  /** Distinct numbers have distinct decimal strings. */
  lemma DecimalStringInjective(m: nat, n: nat)
    requires DecimalString(m) == DecimalString(n)
    ensures m == n
  {
    DecimalRoundTrip(m);
    DecimalRoundTrip(n);
  }

  /** `f'{n} Chunks' if n <= 10 else '>10 Chunks'`. */
  function ChunkKey(appendCount: nat): string {
    if appendCount <= 10 then DecimalString(appendCount) + " Chunks" else ">10 Chunks"
  }

  /** The boundary of the overflow bucket: 10 chunks keep an exact key, 11 do not. */
  lemma ChunkKeyBoundary()
    ensures ChunkKey(1) == "1 Chunks"
    ensures ChunkKey(2) == "2 Chunks"
    ensures ChunkKey(10) == "10 Chunks"
    ensures ChunkKey(11) == ">10 Chunks"
  {
    assert DecimalString(10) == DecimalString(1) + [DigitChar(0)];
  }

  /** Two chunk counts share a key exactly when they are equal or both above 10. */
  lemma ChunkKeysDistinct(m: nat, n: nat)
    ensures ChunkKey(m) == ChunkKey(n) <==> m == n || (m > 10 && n > 10)
  {
    var suffix := " Chunks";
    if m <= 10 && n <= 10 && ChunkKey(m) == ChunkKey(n) {
      var dm, dn := DecimalString(m), DecimalString(n);
      assert |dm| == |dn|;
      assert dm == (dm + suffix)[..|dm|] && dn == (dn + suffix)[..|dn|];
      DecimalStringInjective(m, n);
    }
    if m <= 10 && n > 10 {
      assert ChunkKey(m)[0] != ChunkKey(n)[0];
    }
    if m > 10 && n <= 10 {
      assert ChunkKey(m)[0] != ChunkKey(n)[0];
    }
  }

  /** `d[key] = d.get(key, 0) + 1`. */
  function Bump(m: map<string, nat>, key: string): (r: map<string, nat>)
    ensures r.Keys == m.Keys + {key}
    ensures r[key] == (if key in m then m[key] else 0) + 1
    ensures forall k :: k in m && k != key ==> r[k] == m[k]
  {
    m[key := (if key in m then m[key] else 0) + 1]
  }

  ghost function PickKey(m: map<string, nat>): (k: string)
    requires m != map[]
    ensures k in m
  {
    assert exists k :: k in m by {
      assert m.Keys != {};
      var k :| k in m.Keys;
    }
    var k :| k in m; k
  }

  /** `sum(d.values())`. */
  ghost function SumValues(m: map<string, nat>): nat
    decreases |m|
  {
    if m == map[] then 0
    else
      var k := PickKey(m);
      assert |m - {k}| < |m| by {
        assert (m - {k}).Keys + {k} == m.Keys;
      }
      m[k] + SumValues(m - {k})
  }

  /** The sum does not depend on which key is taken out first. */
  lemma {:induction false} SumValuesRemove(m: map<string, nat>, k: string)
    requires k in m
    ensures SumValues(m) == m[k] + SumValues(m - {k})
    decreases |m|
  {
    var p := PickKey(m);
    if p != k {
      assert (m - {p}).Keys + {p} == m.Keys;
      SumValuesRemove(m - {p}, k);
      assert (m - {k}).Keys + {k} == m.Keys;
      SumValuesRemove(m - {k}, p);
      assert m - {p} - {k} == m - {k} - {p};
    }
  }

  /** Incrementing one bucket adds exactly one to the sum of the buckets. */
  lemma BumpAddsOne(m: map<string, nat>, key: string)
    ensures SumValues(Bump(m, key)) == SumValues(m) + 1
  {
    var r := Bump(m, key);
    SumValuesRemove(r, key);
    if key in m {
      SumValuesRemove(m, key);
      assert r - {key} == m - {key};
    } else {
      assert r - {key} == m;
    }
  }
}
