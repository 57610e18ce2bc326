// Output script classification.
module Script {
  import opened Wrappers
  import opened Bytes

  type Hash20 = h: seq<byte> | |h| == 20 witness seq(20, _ => 0)

  type Hash160 = bytes -> Hash20

  datatype ScriptType =
    | Unknown | P2PK | P2PKH | P2SH | P2WPKH | P2WSH | P2TR | OpReturn | BareMultisig | WitnessUnknown
  {
    /** The stored one-byte code. */
    function Code(): (c: byte) {
      match this
      case Unknown => 0 case P2PK => 1 case P2PKH => 2 case P2SH => 3 case P2WPKH => 4
      case P2WSH => 5 case P2TR => 6 case OpReturn => 7 case BareMultisig => 8 case WitnessUnknown => 9
    }
  }

  /** Right-padded with zeros, or cut, to 32 bytes. */
  function Pad(b: bytes): (h: Hash)
    ensures forall i :: 0 <= i < 32 ==> h[i] == if i < |b| then b[i] else 0
  {
    seq(32, i requires 0 <= i < 32 => if i < |b| then b[i] else 0)
  }

  // ---- Bare multisig ----

  predicate IsKeyLen(n: nat) { n == 33 || n == 65 }

  /** The number of key pushes that exactly fill `s[i..end]`, if they do. */
  function Pushes(s: bytes, i: nat, end: nat): Option<nat>
    requires i <= end <= |s|
    decreases end - i
  {
    if i == end then Some(0)
    else if !IsKeyLen(s[i]) || i + 1 + s[i] > end then None
    else
      var rest :- Pushes(s, i + 1 + s[i], end);
      Some(rest + 1)
  }

  predicate InOpRange(op: byte) { 0x51 <= op <= 0x60 }

  /** What the recogniser accepts: its counter is a byte, so the count is taken modulo 256. */
  predicate IsMultisig(s: bytes) {
    && |s| >= 3 && s[|s| - 1] == 0xae
    && InOpRange(s[0]) && InOpRange(s[|s| - 2]) && s[0] <= s[|s| - 2]
    && Pushes(s, 1, |s| - 2).Some?
    && Pushes(s, 1, |s| - 2).value % 0x100 == s[|s| - 2] - 0x50
  }

  /** One push leaves the rest to be counted, or there is no count. */
  lemma PushStep(s: bytes, i: nat, end: nat)
    requires i < end <= |s|
    ensures !IsKeyLen(s[i]) || i + 1 + s[i] > end ==> Pushes(s, i, end).None?
    ensures IsKeyLen(s[i]) && i + 1 + s[i] <= end ==> Pushes(s, i, end) == Plus(Pushes(s, i + 1 + s[i], end), 1)
  {
  }

  lemma {:induction false} NoMorePushes(s: bytes, end: nat)
    requires end <= |s|
    ensures Pushes(s, end, end) == Some(0)
  {
  }

  method IsBareMultisig(spk: bytes) returns (r: bool)
    ensures r == IsMultisig(spk)
  {
    hide Pushes;
    var len := |spk|;
    if len < 3 || spk[len - 1] != 0xae { return false; }
    var m, n := spk[0], spk[len - 2];
    if !InOpRange(m) || !InOpRange(n) { return false; }
    m, n := m - 0x50, n - 0x50;
    if m == 0 || n == 0 || m > n { return false; }
    var i := 1;
    var count: byte := 0;
    ghost var pushes := 0;
    while i < len - 2
      invariant 1 <= i <= len - 2
      invariant count == pushes % 0x100
      invariant Pushes(spk, 1, len - 2) == Plus(Pushes(spk, i, len - 2), pushes)
    {
      PushStep(spk, i, len - 2);
      var push := spk[i];
      if push != 33 && push != 65 { return false; }
      if i + 1 + push > len - 2 { return false; }
      count := (count + 1) % 0x100;
      pushes := pushes + 1;
      i := i + 1 + push;
    }
    NoMorePushes(spk, i);
    r := i == len - 2 && count == n;
  }

  ghost function Plus(c: Option<nat>, k: nat): Option<nat> {
    if c.None? then None else Some(c.value + k)
  }

  ghost predicate AreKeys(keys: seq<bytes>) {
    forall k :: k in keys ==> IsKeyLen(|k|)
  }

  /** Key pushes in order: a length byte, then the key. */
  ghost function PushAll(keys: seq<bytes>): bytes
    requires AreKeys(keys)
  {
    if |keys| == 0 then []
    else
      assert keys[0] in keys;
      [|keys[0]|] + keys[0] + PushAll(keys[1..])
  }

  ghost function MultisigScript(m: nat, keys: seq<bytes>, n: nat): bytes
    requires m <= 16 && n <= 16 && AreKeys(keys)
  {
    [0x50 + m] + PushAll(keys) + [0x50 + n, 0xae]
  }

  /** `s` is an m-of-n multisig script with a key list whose length is `n` modulo 256. */
  ghost predicate HasMultisigForm(s: bytes, m: nat, keys: seq<bytes>, n: nat) {
    && 1 <= m <= n <= 16 && AreKeys(keys)
    && s == MultisigScript(m, keys, n)
  }

  ghost function KeysAt(s: bytes, i: nat, end: nat): (keys: seq<bytes>)
    requires i <= end <= |s| && Pushes(s, i, end).Some?
    decreases end - i
  {
    if i == end then [] else [s[i + 1..i + 1 + s[i]]] + KeysAt(s, i + 1 + s[i], end)
  }

  lemma {:induction false} KeysFill(s: bytes, i: nat, end: nat)
    requires i <= end <= |s| && Pushes(s, i, end).Some?
    ensures AreKeys(KeysAt(s, i, end)) && |KeysAt(s, i, end)| == Pushes(s, i, end).value
    ensures PushAll(KeysAt(s, i, end)) == s[i..end]
    decreases end - i
  {
    if i < end {
      var next := i + 1 + s[i];
      KeysFill(s, next, end);
      var keys := KeysAt(s, i, end);
      var k := s[i + 1..next];
      assert keys[0] == k && keys[1..] == KeysAt(s, next, end);
      PushSlice(s, i, next, end);
      forall x | x in keys ensures IsKeyLen(|x|) {
        assert x == k || x in keys[1..];
      }
    }
  }

  lemma PushSlice(s: bytes, i: nat, next: nat, end: nat)
    requires i < next <= end <= |s|
    ensures s[i..end] == [s[i]] + s[i + 1..next] + s[next..end]
  {
  }

  /** The first push, and where the others lie. */
  lemma HeadPush(s: bytes, i: nat, k: bytes, rest: bytes)
    requires IsKeyLen(|k|) && LiesAt(s, i, [|k|] + k + rest)
    ensures i + 1 + |k| + |rest| <= |s| && s[i] == |k| && LiesAt(s, i + 1 + |k|, rest)
  {
    SplitAt(s, i, [|k|] + k, rest);
    assert s[i] == s[i..i + |[|k|] + k|][0] == |k|;
  }

  lemma {:induction false} PushesCount(s: bytes, i: nat, keys: seq<bytes>)
    requires AreKeys(keys) && LiesAt(s, i, PushAll(keys))
    ensures Pushes(s, i, i + |PushAll(keys)|) == Some(|keys|)
    decreases |keys|
  {
    if |keys| > 0 {
      hide LiesAt;
      var k := keys[0];
      assert k in keys;
      HeadPush(s, i, k, PushAll(keys[1..]));
      PushesCount(s, i + 1 + |k|, keys[1..]);
    }
  }

  lemma {:induction false} PushAllLen(keys: seq<bytes>)
    requires AreKeys(keys)
    ensures |PushAll(keys)| >= 34 * |keys|
  {
    if |keys| > 0 {
      assert keys[0] in keys;
      PushAllLen(keys[1..]);
    }
  }

  lemma FormIsAccepted(s: bytes, m: nat, keys: seq<bytes>, n: nat)
    requires HasMultisigForm(s, m, keys, n) && |keys| % 0x100 == n
    ensures IsMultisig(s)
  {
    hide Pushes;
    hide PushAll;
    assert s[1..1 + |PushAll(keys)|] == PushAll(keys);
    PushesCount(s, 1, keys);
  }

  lemma AcceptedHasForm(s: bytes) returns (m: nat, keys: seq<bytes>, n: nat)
    requires IsMultisig(s)
    ensures HasMultisigForm(s, m, keys, n) && |keys| % 0x100 == n
  {
    hide Pushes;
    hide PushAll;
    hide KeysAt;
    var end := |s| - 2;
    m, keys, n := s[0] - 0x50, KeysAt(s, 1, end), s[end] - 0x50;
    KeysFill(s, 1, end);
    assert s == [s[0]] + s[1..end] + [s[end], 0xae];
  }

  /** Exactly which scripts are accepted, at every length. */
  lemma MultisigAcceptsExactly(s: bytes)
    ensures IsMultisig(s) <==> exists m, keys, n :: HasMultisigForm(s, m, keys, n) && |keys| % 0x100 == n
  {
    hide IsMultisig;
    hide HasMultisigForm;
    if IsMultisig(s) {
      var m, keys, n := AcceptedHasForm(s);
    }
    if m, keys, n :| HasMultisigForm(s, m, keys, n) && |keys| % 0x100 == n {
      FormIsAccepted(s, m, keys, n);
    }
  }

  lemma FewKeys(s: bytes, m: nat, keys: seq<bytes>, n: nat)
    requires HasMultisigForm(s, m, keys, n) && |s| < 8741
    ensures |keys| < 257 && n <= 16
  {
    PushAllLen(keys);
  }

  /** Below 8741 bytes the byte counter cannot wrap: acceptance means exactly n keys. */
  lemma MultisigIsExactWhenShort(s: bytes)
    requires |s| < 8741
    ensures IsMultisig(s) <==> exists m, keys, n :: HasMultisigForm(s, m, keys, n) && |keys| == n
  {
    hide IsMultisig;
    if IsMultisig(s) {
      var m, keys, n := AcceptedHasForm(s);
      FewKeys(s, m, keys, n);
      assert 1 <= n;
    }
    hide HasMultisigForm;
    if m, keys, n :| HasMultisigForm(s, m, keys, n) && |keys| == n {
      FewKeys(s, m, keys, n);
      FormIsAccepted(s, m, keys, n);
    }
  }

  /** At 8741 bytes it does: 257 keys pass for a 1-of-1 script. */
  lemma CounterWraps(keys: seq<bytes>)
    requires |keys| == 257 && forall k :: k in keys ==> |k| == 33
    ensures |MultisigScript(1, keys, 1)| == 8741 && IsMultisig(MultisigScript(1, keys, 1))
  {
    var s := MultisigScript(1, keys, 1);
    CompressedLen(keys);
    FormIsAccepted(s, 1, keys, 1);
  }

  lemma {:induction false} CompressedLen(keys: seq<bytes>)
    requires forall k :: k in keys ==> |k| == 33
    ensures AreKeys(keys) && |PushAll(keys)| == 34 * |keys|
  {
    if |keys| > 0 {
      assert keys[0] in keys;
      CompressedLen(keys[1..]);
    }
  }

  // ---- The templates, each on its own ----

  /** A version opcode and one push of 2 to 40 bytes that fills the script. */
  predicate IsWitnessProgram(s: bytes) {
    && 4 <= |s| <= 42 && s[1] == |s| - 2 && 2 <= s[1] <= 40
    && (s[0] == 0x00 || InOpRange(s[0]))
  }

  predicate IsP2PKH(s: bytes) {
    |s| == 25 && s[0] == 0x76 && s[1] == 0xa9 && s[2] == 0x14 && s[23] == 0x88 && s[24] == 0xac
  }

  predicate IsP2SH(s: bytes) {
    |s| == 23 && s[0] == 0xa9 && s[1] == 0x14 && s[22] == 0x87
  }

  /** A compressed or uncompressed key, then OP_CHECKSIG. */
  predicate IsP2PK(s: bytes) {
    && (|s| == 35 || |s| == 67)
    && s[0] == |s| - 2 && s[|s| - 1] == 0xac && 0x02 <= s[1] <= 0x04
  }

  predicate IsOpReturn(s: bytes) { |s| >= 1 && s[0] == 0x6a }

  predicate Matches(t: ScriptType, s: bytes) {
    match t
    case P2PKH => IsP2PKH(s)
    case P2SH => IsP2SH(s)
    case P2WPKH => IsWitnessProgram(s) && s[0] == 0x00 && |s| == 22
    case P2WSH => IsWitnessProgram(s) && s[0] == 0x00 && |s| == 34
    case P2TR => IsWitnessProgram(s) && s[0] == 0x51 && |s| == 34
    case WitnessUnknown =>
      && IsWitnessProgram(s)
      && (s[0] == 0x00 ==> |s| != 22 && |s| != 34)
      && (s[0] == 0x51 ==> |s| != 34)
    case OpReturn => IsOpReturn(s)
    case P2PK => IsP2PK(s)
    case BareMultisig => IsMultisig(s)
    case Unknown =>
      !IsP2PKH(s) && !IsP2SH(s) && !IsWitnessProgram(s) && !IsOpReturn(s) && !IsP2PK(s) && !IsMultisig(s)
  }

  /** The 32-byte address field each template yields. */
  function AddressOf(t: ScriptType, s: bytes, h160: Hash160): Hash
    requires Matches(t, s)
  {
    match t
    case P2PKH => Pad(s[3..23])
    case P2SH => Pad(s[2..22])
    case P2WPKH => Pad(s[2..])
    case P2WSH => Pad(s[2..])
    case P2TR => Pad(s[2..])
    case WitnessUnknown => Pad(s[2..])
    case OpReturn => ZeroHash()
    case P2PK => Pad(h160(s[1..|s| - 1]))
    case BareMultisig => Pad(h160(s))
    case Unknown => ZeroHash()
  }

  /** No key push can double as the push of a witness program. */
  lemma MultisigIsNoProgram(s: bytes)
    requires IsWitnessProgram(s)
    ensures !IsMultisig(s)
  {
    assert Pushes(s, 1, |s| - 2).None?;
  }

  /** The one template a script fits. */
  function Template(s: bytes): (t: ScriptType)
    ensures Matches(t, s)
  {
    if IsP2PKH(s) then P2PKH
    else if IsP2SH(s) then P2SH
    else if IsWitnessProgram(s) then
      if s[0] == 0x00 && |s| == 22 then P2WPKH
      else if s[0] == 0x00 && |s| == 34 then P2WSH
      else if s[0] == 0x51 && |s| == 34 then P2TR
      else WitnessUnknown
    else if IsOpReturn(s) then OpReturn
    else if IsP2PK(s) then P2PK
    else if IsMultisig(s) then BareMultisig
    else Unknown
  }

  lemma TemplateIsUnique(s: bytes, t: ScriptType)
    requires Matches(t, s)
    ensures t == Template(s)
  {
    if IsWitnessProgram(s) { MultisigIsNoProgram(s); }
    hide IsMultisig;
    match t
    case Unknown => case P2PK => case P2PKH => case P2SH => case P2WPKH =>
    case P2WSH => case P2TR => case OpReturn => case BareMultisig => case WitnessUnknown =>
  }

  /** No script fits two templates, so the order of the tests is immaterial. */
  lemma TemplatesDisjoint(s: bytes, t: ScriptType, u: ScriptType)
    requires Matches(t, s) && Matches(u, s)
    ensures t == u
  {
    TemplateIsUnique(s, t);
    TemplateIsUnique(s, u);
  }

  /** The source's tests, in its order. */
  method ClassifyScript(spk: bytes, h160: Hash160) returns (t: ScriptType, h: Hash)
    ensures Matches(t, spk) && h == AddressOf(t, spk, h160)
  {
    var len := |spk|;
    if len == 25 && spk[0] == 0x76 && spk[1] == 0xa9 && spk[2] == 0x14 && spk[23] == 0x88 && spk[24] == 0xac {
      return P2PKH, Pad(spk[3..23]);
    }
    if len == 23 && spk[0] == 0xa9 && spk[1] == 0x14 && spk[22] == 0x87 {
      return P2SH, Pad(spk[2..22]);
    }
    if 4 <= len <= 42 {
      var op: nat, pushLen: nat := spk[0], spk[1];
      if pushLen + 2 == len && 2 <= pushLen <= 40 {
        if op == 0x00 {
          if pushLen == 20 {
            assert spk[2..22] == spk[2..];
            return P2WPKH, Pad(spk[2..22]);
          }
          if pushLen == 32 {
            assert spk[2..34] == spk[2..];
            return P2WSH, Pad(spk[2..34]);
          }
          return WitnessUnknown, Pad(spk[2..]);
        }
        if 0x51 <= op <= 0x60 {
          if op == 0x51 && pushLen == 32 {
            assert spk[2..34] == spk[2..];
            return P2TR, Pad(spk[2..34]);
          }
          return WitnessUnknown, Pad(spk[2..]);
        }
      }
    }
    if len >= 1 && spk[0] == 0x6a {
      return OpReturn, ZeroHash();
    }
    if (len == 35 && spk[0] == 33 && spk[34] == 0xac) || (len == 67 && spk[0] == 65 && spk[66] == 0xac) {
      var pkLen := spk[0];
      var pk := spk[1..1 + pkLen];
      if 0x02 <= pk[0] <= 0x04 {
        return P2PK, Pad(h160(pk));
      }
    }
    var multisig := IsBareMultisig(spk);
    if multisig {
      return BareMultisig, Pad(h160(spk));
    }
    return Unknown, ZeroHash();
  }
}
