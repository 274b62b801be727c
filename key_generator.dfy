/**
 * The batch generator that seeds the key registry: each code is `DKADMIN-` followed by four
 * groups of upper-case hex digits (8, 8, 8 and 4) read from fresh random bytes; a run on an
 * empty registry saves ten pairwise-distinct codes, drawing again whenever a code repeats one
 * already made in the batch, and a run on a non-empty registry saves nothing.
 */
module KeyGenerator {
  import opened JsText
  import opened SecureKeys
  import Lists

  const Prefix := "DKADMIN"
  const BatchSize := 10
  /** Random bytes one code consumes: `randomBytes(4)` three times, then `randomBytes(2)`. */
  const DrawSize := 14
  const CodeLength := 39

  /** One random byte. */
  type Byte = x: nat | x < 256

  predicate IsUpperHex(c: char) {
    '0' <= c <= '9' || 'A' <= c <= 'F'
  }

  function HexDigit(n: nat): (c: char)
    requires n < 16
    ensures IsUpperHex(c)
  {
    if n < 10 then ('0' as int + n) as char else ('A' as int + n - 10) as char
  }

  lemma HexDigitInjective(m: nat, n: nat)
    requires m < 16 && n < 16 && HexDigit(m) == HexDigit(n)
    ensures m == n
  {
  }

  /** One byte as two hex digits, high nibble first. */
  function HexByte(b: Byte): (r: string)
    ensures |r| == 2 && IsUpperHex(r[0]) && IsUpperHex(r[1])
  {
    [HexDigit(b / 16), HexDigit(b % 16)]
  }

  lemma HexByteInjective(x: Byte, y: Byte)
    requires HexByte(x) == HexByte(y)
    ensures x == y
  {
    assert HexByte(x)[0] == HexByte(y)[0] && HexByte(x)[1] == HexByte(y)[1];
    HexDigitInjective(x / 16, y / 16);
    HexDigitInjective(x % 16, y % 16);
  }

  /** `bytes.toString('hex').toUpperCase()`. */
  function Hex(bytes: seq<Byte>): (r: string)
    ensures |r| == 2 * |bytes|
    ensures forall i :: 0 <= i < |r| ==> IsUpperHex(r[i])
  {
    if bytes == [] then [] else HexByte(bytes[0]) + Hex(bytes[1..])
  }

  /** Different bytes never print as the same hex text. */
  lemma {:induction false} HexInjective(a: seq<Byte>, b: seq<Byte>)
    requires |a| == |b| && Hex(a) == Hex(b)
    ensures a == b
  {
    if a != [] {
      assert Hex(a)[..2] == HexByte(a[0]) && Hex(b)[..2] == HexByte(b[0]);
      HexByteInjective(a[0], b[0]);
      assert Hex(a)[2..] == Hex(a[1..]) && Hex(b)[2..] == Hex(b[1..]);
      HexInjective(a[1..], b[1..]);
      assert a == [a[0]] + a[1..] && b == [b[0]] + b[1..];
    }
  }

  /** The code format: the prefix, then 8, 8, 8 and 4 upper-case hex digits separated by `-`. */
  predicate WellFormedCode(code: string) {
    && |code| == CodeLength
    && code[..8] == Prefix + "-"
    && code[16] == '-' && code[25] == '-' && code[34] == '-'
    && forall i :: 8 <= i < CodeLength && i != 16 && i != 25 && i != 34 ==> IsUpperHex(code[i])
  }

  /** `generateSecureKey()`, reading its random bytes from `entropy`. */
  function GenerateSecureKey(entropy: seq<Byte>): (code: string)
    requires |entropy| == DrawSize
    ensures WellFormedCode(code)
  {
    Prefix + "-" + Hex(entropy[..4]) + "-" + Hex(entropy[4..8]) + "-" + Hex(entropy[8..12])
    + "-" + Hex(entropy[12..])
  }

  /** Where each group of a code sits, and which bytes it prints. */
  lemma CodeGroups(a: seq<Byte>)
    requires |a| == DrawSize
    ensures var c := GenerateSecureKey(a);
      && c[8..16] == Hex(a[..4]) && c[17..25] == Hex(a[4..8])
      && c[26..34] == Hex(a[8..12]) && c[35..] == Hex(a[12..])
  {
  }

  /** Distinct random draws always give distinct codes. */
  lemma GenerateSecureKeyInjective(a: seq<Byte>, b: seq<Byte>)
    requires |a| == DrawSize && |b| == DrawSize
    requires GenerateSecureKey(a) == GenerateSecureKey(b)
    ensures a == b
  {
    CodeGroups(a);
    CodeGroups(b);
    HexInjective(a[..4], b[..4]);
    HexInjective(a[4..8], b[4..8]);
    HexInjective(a[8..12], b[8..12]);
    HexInjective(a[12..], b[12..]);
    assert a == a[..4] + a[4..8] + a[8..12] + a[12..];
    assert b == b[..4] + b[4..8] + b[8..12] + b[12..];
  }

  /** The codes a stream of random draws would produce, one per draw. */
  function Codes(draws: seq<seq<Byte>>): (r: seq<string>)
    requires forall i :: 0 <= i < |draws| ==> |draws[i]| == DrawSize
    ensures |r| == |draws|
    ensures forall i :: 0 <= i < |r| ==> r[i] == GenerateSecureKey(draws[i])
  {
    seq(|draws|, i requires 0 <= i < |draws| => GenerateSecureKey(draws[i]))
  }

  /**
   * The batch the generator keeps from a stream of codes, read from position `n` on: codes in
   * the order drawn, each one that repeats a code already in the batch skipped, until the batch
   * holds ten.
   */
  function Batch(codes: seq<string>, n: nat, acc: seq<string>): seq<string>
    requires n <= |codes|
    decreases |codes| - n
  {
    if |acc| >= BatchSize || n == |codes| then acc
    else if codes[n] in acc then Batch(codes, n + 1, acc)
    else Batch(codes, n + 1, acc + [codes[n]])
  }

  ghost function Elements(xs: seq<string>): set<string> {
    set x | x in xs
  }

  lemma {:induction false} DistinctElements(xs: seq<string>)
    requires Lists.NoDuplicates(xs)
    ensures |Elements(xs)| == |xs|
  {
    if xs != [] {
      var init := xs[..|xs| - 1];
      assert Lists.NoDuplicates(init);
      DistinctElements(init);
      assert Elements(xs) == Elements(init) + {xs[|xs| - 1]};
      assert xs[|xs| - 1] !in Elements(init);
    }
  }

  lemma {:induction false} ElementsBound(xs: seq<string>)
    ensures |Elements(xs)| <= |xs|
  {
    if xs != [] {
      var init := xs[..|xs| - 1];
      ElementsBound(init);
      assert Elements(xs) == Elements(init) + {xs[|xs| - 1]};
    }
  }

  /**
   * A batch never repeats a code, never exceeds ten codes, and is as long as it can be: ten,
   * or every distinct code the stream offers when that is fewer.
   */
  lemma {:induction false} BatchProperties(codes: seq<string>, n: nat, acc: seq<string>)
    requires n <= |codes| && Lists.NoDuplicates(acc) && |acc| <= BatchSize
    ensures Lists.NoDuplicates(Batch(codes, n, acc))
    ensures |Batch(codes, n, acc)| <= BatchSize
    ensures |Elements(acc + codes[n..])| >= BatchSize ==> |Batch(codes, n, acc)| == BatchSize
    ensures |Batch(codes, n, acc)| < BatchSize ==>
      |Batch(codes, n, acc)| == |Elements(acc + codes[n..])|
    decreases |codes| - n
  {
    if |acc| >= BatchSize {
      DistinctElements(acc);
      assert Elements(acc) <= Elements(acc + codes[n..]);
    } else if n == |codes| {
      DistinctElements(acc);
      assert acc + codes[n..] == acc;
    } else if codes[n] in acc {
      BatchProperties(codes, n + 1, acc);
      assert codes[n..] == [codes[n]] + codes[n + 1..];
      assert Elements(acc + codes[n..]) == Elements(acc + codes[n + 1..]);
    } else {
      var acc' := acc + [codes[n]];
      Lists.AppendAbsentKeepsNoDuplicates(acc, codes[n]);
      BatchProperties(codes, n + 1, acc');
      assert codes[n..] == [codes[n]] + codes[n + 1..];
      assert acc' + codes[n + 1..] == acc + codes[n..];
    }
  }

  /** A stream of at least ten different draws always yields a full batch of ten codes. */
  lemma FullBatch(draws: seq<seq<Byte>>)
    requires forall i :: 0 <= i < |draws| ==> |draws[i]| == DrawSize
    requires Lists.NoDuplicates(draws) && |draws| >= BatchSize
    ensures |Batch(Codes(draws), 0, [])| == BatchSize
  {
    var codes := Codes(draws);
    forall i, j | 0 <= i < j < |codes| ensures codes[i] != codes[j] {
      if codes[i] == codes[j] {
        GenerateSecureKeyInjective(draws[i], draws[j]);
      }
    }
    DistinctElements(codes);
    assert [] + codes[0..] == codes;
    BatchProperties(codes, 0, []);
  }

  /** The documents a batch saves: unused, numbered `Admin registration key #1` onwards. */
  function BatchRecords(keys: seq<string>): (r: seq<SecureKey>)
    ensures |r| == |keys|
    ensures forall i :: 0 <= i < |keys| ==> r[i] == NewKey(keys[i], KeyDescription(i + 1))
  {
    seq(|keys|, i requires 0 <= i < |keys| => NewKey(keys[i], KeyDescription(i + 1)))
  }

  /** The description of the `n`-th key of a batch. */
  function KeyDescription(n: nat): string {
    "Admin registration key #" + IntToString(n)
  }

  lemma BatchRecordsAppend(keys: seq<string>, key: string)
    ensures BatchRecords(keys + [key]) == BatchRecords(keys) + [NewKey(key, KeyDescription(|keys| + 1))]
  {
  }

  /** A saved batch of distinct codes is a well-formed registry in which every key remains. */
  lemma BatchRecordsWellFormed(keys: seq<string>)
    requires Lists.NoDuplicates(keys)
    ensures WellFormed(BatchRecords(keys))
    ensures RemainingKeysCount(BatchRecords(keys)) == |keys|
  {
    var r := BatchRecords(keys);
    assert forall i :: 0 <= i < |r| ==> r[i].key == keys[i] && !r[i].isUsed && UsageRecorded(r[i]);
    assert forall i :: 0 <= i < |r| ==> IsUnused(r[i]);
  }

  /**
   * Whatever the draws, the batch saved is a well-formed registry of well-formed codes, none
   * used yet, and it holds ten keys unless the draws offer fewer distinct codes.
   */
  lemma GeneratedBatchWellFormed(draws: seq<seq<Byte>>)
    requires forall i :: 0 <= i < |draws| ==> |draws[i]| == DrawSize
    ensures var keys := Batch(Codes(draws), 0, []);
      && WellFormed(BatchRecords(keys))
      && RemainingKeysCount(BatchRecords(keys)) == |keys| <= BatchSize
      && (forall i :: 0 <= i < |keys| ==> WellFormedCode(keys[i]))
  {
    var codes := Codes(draws);
    var keys := Batch(codes, 0, []);
    BatchProperties(codes, 0, []);
    BatchRecordsWellFormed(keys);
    BatchCodesWellFormed(draws);
  }

  /** Every code of a batch is a generated code, so it has the code format. */
  lemma BatchCodesWellFormed(draws: seq<seq<Byte>>)
    requires forall i :: 0 <= i < |draws| ==> |draws[i]| == DrawSize
    ensures forall x :: x in Batch(Codes(draws), 0, []) ==> WellFormedCode(x)
  {
    var codes := Codes(draws);
    BatchFromCodes(codes, 0, []);
    assert codes[0..] == codes;
    forall x | x in Batch(codes, 0, []) ensures WellFormedCode(x) {
      var j :| 0 <= j < |codes| && codes[j] == x;
    }
  }

  /** Every code in a batch comes from the stream or the starting batch. */
  lemma {:induction false} BatchFromCodes(codes: seq<string>, n: nat, acc: seq<string>)
    requires n <= |codes|
    ensures forall x :: x in Batch(codes, n, acc) ==> x in acc || x in codes[n..]
    decreases |codes| - n
  {
    if |acc| < BatchSize && n < |codes| {
      if codes[n] in acc {
        BatchFromCodes(codes, n + 1, acc);
      } else {
        BatchFromCodes(codes, n + 1, acc + [codes[n]]);
      }
      assert codes[n..] == [codes[n]] + codes[n + 1..];
    }
  }

  datatype BatchOutcome =
    | AlreadySeeded(existing: nat)
    | Generated(keys: seq<string>)
    | OutOfEntropy(keys: seq<string>)

  /**
   * The `do { … } while (generatedKeys.has(key))` retry: draws from position `next` until a
   * code outside the batch comes up, or the draws run out.
   */
  method DrawFresh(draws: seq<seq<Byte>>, next: nat, generated: set<string>, ghost keys: seq<string>)
    returns (key: string, next': nat, found: bool)
    requires forall i :: 0 <= i < |draws| ==> |draws[i]| == DrawSize
    requires next < |draws| && |keys| < BatchSize
    requires forall k :: k in generated <==> k in keys
    ensures next < next' <= |draws|
    ensures found ==> key == Codes(draws)[next' - 1] && key !in keys
    ensures found ==> Batch(Codes(draws), next, keys) == Batch(Codes(draws), next' - 1, keys)
    ensures !found ==> next' == |draws| && Batch(Codes(draws), next, keys) == keys
  {
    ghost var codes := Codes(draws);
    key := GenerateSecureKey(draws[next]);
    next' := next + 1;
    while key in generated
      invariant next < next' <= |draws| && key == codes[next' - 1]
      invariant Batch(codes, next, keys) == Batch(codes, next' - 1, keys)
      decreases |draws| - next'
    {
      if next' == |draws| {
        return key, next', false;
      }
      key := GenerateSecureKey(draws[next']);
      next' := next' + 1;
    }
    found := true;
  }

  /**
   * `generateSecureKeys()`: a registry that already holds keys is left alone; otherwise ten
   * codes are drawn, each retried while it repeats one already in the batch, and each saved as
   * it is made. `draws` stands for the random bytes; running out of them ends the batch early.
   */
  method GenerateSecureKeys(store: KeyStore, draws: seq<seq<Byte>>) returns (outcome: BatchOutcome)
    requires forall i :: 0 <= i < |draws| ==> |draws[i]| == DrawSize
    modifies store
    ensures old(store.table) != [] ==>
      outcome == AlreadySeeded(|old(store.table)|) && store.table == old(store.table)
    ensures old(store.table) == [] ==> !outcome.AlreadySeeded?
    ensures !outcome.AlreadySeeded? ==> outcome.keys == Batch(Codes(draws), 0, [])
    ensures !outcome.AlreadySeeded? ==> store.table == BatchRecords(outcome.keys)
    ensures outcome.Generated? ==> |outcome.keys| == BatchSize
    ensures outcome.OutOfEntropy? ==> |outcome.keys| < BatchSize
  {
    if store.table != [] {
      return AlreadySeeded(|store.table|);
    }
    ghost var codes := Codes(draws);
    var keys: seq<string> := [];
    var generated: set<string> := {};
    var next := 0;
    for i := 0 to BatchSize
      invariant |keys| == i && next <= |draws|
      invariant Lists.NoDuplicates(keys)
      invariant forall k :: k in generated <==> k in keys
      invariant Batch(codes, next, keys) == Batch(codes, 0, [])
      invariant store.table == BatchRecords(keys)
    {
      if next == |draws| {
        return OutOfEntropy(keys);
      }
      var key, found;
      key, next, found := DrawFresh(draws, next, generated, keys);
      if !found {
        return OutOfEntropy(keys);
      }
      generated := generated + {key};
      Lists.AppendAbsentKeepsNoDuplicates(keys, key);
      var ok := store.Insert(NewKey(key, KeyDescription(i + 1)));
      assert ok;
      BatchRecordsAppend(keys, key);
      keys := keys + [key];
    }
    return Generated(keys);
  }
}
