// What the index stores for an output script, told from what the script was built of.
module ScriptForms {
  import opened Bytes
  import opened Script

  /** The standard output scripts by their content. */
  datatype Content =
    | PubkeyHash(hash: Hash20)
    | ScriptHash(hash: Hash20)
    | Witness(version: nat, program: bytes)
    | Pubkey(key: bytes)
    | Data(rest: bytes)
    | Multisig(m: nat, keys: seq<bytes>, n: nat)

  /** The multisig recogniser counts its keys in one byte. */
  ghost predicate WellFormed(c: Content) {
    match c
    case PubkeyHash(_) => true
    case ScriptHash(_) => true
    case Witness(version, program) => version <= 16 && 2 <= |program| <= 40
    case Pubkey(key) => (|key| == 33 || |key| == 65) && 2 <= key[0] <= 4
    case Data(_) => true
    case Multisig(m, keys, n) =>
      1 <= m <= n <= 16 && |keys| % 0x100 == n && forall k :: k in keys ==> |k| == 33 || |k| == 65
  }

  /** The script, opcode by opcode. */
  ghost function Written(c: Content): bytes
    requires WellFormed(c)
  {
    match c
    case PubkeyHash(h) => [0x76, 0xa9, 20] + h + [0x88, 0xac]
    case ScriptHash(h) => [0xa9, 20] + h + [0x87]
    case Witness(version, program) => [if version == 0 then 0 else 0x50 + version, |program|] + program
    case Pubkey(key) => [|key|] + key + [0xac]
    case Data(rest) => [0x6a] + rest
    case Multisig(m, keys, n) => [0x50 + m] + PushAll(keys) + [0x50 + n, 0xae]
  }

  /** The code stored for it. */
  function CodeFor(c: Content): nat {
    match c
    case PubkeyHash(_) => 2
    case ScriptHash(_) => 3
    case Witness(version, program) =>
      if version == 0 && |program| == 20 then 4
      else if version == 0 && |program| == 32 then 5
      else if version == 1 && |program| == 32 then 6
      else 9
    case Pubkey(_) => 1
    case Data(_) => 7
    case Multisig(_, _, _) => 8
  }

  /** The bytes that identify the payee. */
  ghost function Payee(c: Content, h160: Hash160): bytes
    requires WellFormed(c)
  {
    match c
    case PubkeyHash(h) => h
    case ScriptHash(h) => h
    case Witness(_, program) => program
    case Pubkey(key) => h160(key)
    case Data(_) => []
    case Multisig(m, keys, n) => h160(Written(c))
  }

  /** The field holds as much of `b` as fits and zeros after it. */
  predicate Holds(field: Hash, b: bytes) {
    forall i :: 0 <= i < 32 ==> field[i] == if i < |b| then b[i] else 0
  }

  ghost predicate Writes(c: Content, s: bytes) { WellFormed(c) && s == Written(c) }

  /** Code and field stored for a script: those of its content, or zeros if it has no standard form. */
  ghost predicate Labels(s: bytes, code: byte, field: Hash, h160: Hash160) {
    && (forall c :: Writes(c, s) ==> code == CodeFor(c) && Holds(field, Payee(c, h160)))
    && ((forall c :: !Writes(c, s)) ==> code == 0 && Holds(field, []))
  }

  // ---- Each content gets its own code ----

  /** The template a content is recognised as. */
  function TypeFor(c: Content): ScriptType {
    match c
    case PubkeyHash(_) => P2PKH
    case ScriptHash(_) => P2SH
    case Witness(version, program) =>
      if version == 0 && |program| == 20 then P2WPKH
      else if version == 0 && |program| == 32 then P2WSH
      else if version == 1 && |program| == 32 then P2TR
      else WitnessUnknown
    case Pubkey(_) => P2PK
    case Data(_) => OpReturn
    case Multisig(_, _, _) => BareMultisig
  }

  lemma MultisigMatches(c: Content)
    requires WellFormed(c) && c.Multisig?
    ensures Script.Matches(BareMultisig, Written(c))
  {
    hide IsMultisig;
    hide PushAll;
    FormIsAccepted(Written(c), c.m, c.keys, c.n);
  }

  lemma WrittenMatches(c: Content)
    requires WellFormed(c)
    ensures Script.Matches(TypeFor(c), Written(c))
  {
    hide IsMultisig;
    hide PushAll;
    if c.Multisig? {
      MultisigMatches(c);
    }
  }

  lemma PadHolds(b: bytes)
    requires |b| <= 32
    ensures Holds(Pad(b), b)
  {
  }

  lemma HashField(c: Content, h160: Hash160)
    requires WellFormed(c) && (c.PubkeyHash? || c.ScriptHash? || c.Pubkey?)
    requires Script.Matches(TypeFor(c), Written(c))
    ensures AddressOf(TypeFor(c), Written(c), h160) == Pad(Payee(c, h160))
  {
    hide Pad;
    var s := Written(c);
    match c
    case PubkeyHash(h) => assert s[3..23] == h;
    case ScriptHash(h) => assert s[2..22] == h;
    case Pubkey(key) => assert s[1..|s| - 1] == key;
  }

  lemma ProgramField(c: Content, h160: Hash160)
    requires WellFormed(c) && c.Witness? && Script.Matches(TypeFor(c), Written(c))
    ensures Holds(AddressOf(TypeFor(c), Written(c), h160), c.program)
  {
    assert Written(c)[2..] == c.program;
  }

  lemma WrittenField(c: Content, h160: Hash160)
    requires WellFormed(c) && Script.Matches(TypeFor(c), Written(c))
    ensures Holds(AddressOf(TypeFor(c), Written(c), h160), Payee(c, h160))
  {
    hide IsMultisig;
    hide Written;
    hide Pad;
    hide Holds;
    if c.Witness? {
      ProgramField(c, h160);
    } else {
      if c.PubkeyHash? || c.ScriptHash? || c.Pubkey? { HashField(c, h160); }
      PadHolds(Payee(c, h160));
      if c.Data? { NoField(); }
    }
  }

  lemma NoField()
    ensures Holds(ZeroHash(), [])
  {
  }

  /** A script built from some content is stored under that content's code, with its payee. */
  lemma BuiltScriptStored(c: Content, h160: Hash160)
    requires WellFormed(c)
    ensures var s := Written(c);
            Template(s).Code() == CodeFor(c) && Holds(AddressOf(Template(s), s, h160), Payee(c, h160))
  {
    hide Written;
    hide AddressOf;
    WrittenMatches(c);
    TemplateIsUnique(Written(c), TypeFor(c));
    WrittenField(c, h160);
  }

  // ---- Nothing else gets one ----

  lemma HashContent(s: bytes) returns (c: Content)
    requires IsP2PKH(s) || IsP2SH(s)
    ensures Writes(c, s)
  {
    if IsP2PKH(s) {
      c := PubkeyHash(s[3..23]);
      assert s == [0x76, 0xa9, 20] + s[3..23] + [0x88, 0xac];
    } else {
      c := ScriptHash(s[2..22]);
      assert s == [0xa9, 20] + s[2..22] + [0x87];
    }
  }

  lemma ProgramContent(s: bytes) returns (c: Content)
    requires IsWitnessProgram(s)
    ensures Writes(c, s)
  {
    c := Witness(if s[0] == 0 then 0 else s[0] - 0x50, s[2..]);
    assert s == [s[0], s[1]] + s[2..];
  }

  lemma KeyContent(s: bytes) returns (c: Content)
    requires IsP2PK(s)
    ensures Writes(c, s)
  {
    c := Pubkey(s[1..|s| - 1]);
    assert s == [s[0]] + s[1..|s| - 1] + [s[|s| - 1]];
  }

  lemma DataContent(s: bytes) returns (c: Content)
    requires IsOpReturn(s)
    ensures Writes(c, s)
  {
    c := Data(s[1..]);
    assert s == [0x6a] + s[1..];
  }

  lemma MultisigContent(s: bytes) returns (c: Content)
    requires IsMultisig(s)
    ensures Writes(c, s)
  {
    hide IsMultisig;
    hide PushAll;
    var m, keys, n := AcceptedHasForm(s);
    c := Multisig(m, keys, n);
  }

  /** The content of a script with a code other than 0. */
  lemma ContentOf(s: bytes) returns (c: Content)
    requires Template(s) != Unknown
    ensures Writes(c, s)
  {
    hide IsMultisig;
    hide IsP2PKH;
    hide IsP2SH;
    hide IsWitnessProgram;
    hide IsP2PK;
    hide Writes;
    if IsP2PKH(s) || IsP2SH(s) {
      c := HashContent(s);
    } else if IsWitnessProgram(s) {
      c := ProgramContent(s);
    } else if IsOpReturn(s) {
      c := DataContent(s);
    } else if IsP2PK(s) {
      c := KeyContent(s);
    } else {
      c := MultisigContent(s);
    }
  }

  /** Every script is labelled as its content says, and every script without content as unknown. */
  lemma EveryScriptLabelled(s: bytes, h160: Hash160)
    ensures Labels(s, Template(s).Code(), AddressOf(Template(s), s, h160), h160)
  {
    hide Template;
    hide AddressOf;
    forall c | Writes(c, s)
      ensures Template(s).Code() == CodeFor(c) && Holds(AddressOf(Template(s), s, h160), Payee(c, h160))
    {
      BuiltScriptStored(c, h160);
    }
    if Template(s) != Unknown {
      var c := ContentOf(s);
    } else {
      UnknownField(s, h160);
    }
  }

  lemma UnknownField(s: bytes, h160: Hash160)
    requires Template(s) == Unknown
    ensures Holds(AddressOf(Template(s), s, h160), [])
  {
    hide IsMultisig;
  }

  /** No script has contents with different codes, so a label's code is determined. */
  lemma OneCode(c: Content, d: Content)
    requires WellFormed(c) && WellFormed(d) && Written(c) == Written(d)
    ensures CodeFor(c) == CodeFor(d)
  {
    BuiltScriptStored(c, _ => seq(20, _ => 0));
    BuiltScriptStored(d, _ => seq(20, _ => 0));
  }
}
