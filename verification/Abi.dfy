/** What is encoded to register a skill (`agent-learn/src/registry.rs`). */
module Abi {
  // The calldata of the registration and the preimage of the skill's id, against a decoder that follows
  // the "Formal Specification of the Encoding" section of the Solidity Contract ABI Specification.

  import opened Wrappers

  type Byte = b: int | 0 <= b < 256

  type Bytes = seq<Byte>

  // ----- Words -------------------------------------------------------------------------------------------

  function Zeros(n: nat): (bs: Bytes)
    ensures |bs| == n
  {
    seq(n, _ => 0)
  }

  /** The last `k` bytes of `n`, most significant first. */
  function BigEndian(n: nat, k: nat): (bs: Bytes)
    ensures |bs| == k
  {
    if k == 0 then [] else BigEndian(n / 256, k - 1) + [n % 256]
  }

  /** A length or an offset as a 32-byte word. */
  function Word(n: nat): (w: Bytes)
    ensures |w| == 32
  {
    Zeros(24) + BigEndian(n % TWO_64, 8)
  }

  /** What a word says. */
  function Value(bs: Bytes): (n: nat) {
    if bs == [] then 0 else 256 * Value(bs[..|bs| - 1]) + bs[|bs| - 1]
  }

  function Power256(k: nat): (p: nat) {
    if k == 0 then 1 else 256 * Power256(k - 1)
  }

  lemma {:induction false} ValueOfBigEndian(n: nat, k: nat)
    requires n < Power256(k)
    ensures Value(BigEndian(n, k)) == n
    decreases k
  {
    if k > 0 {
      ValueOfBigEndian(n / 256, k - 1);
      assert BigEndian(n, k)[..k - 1] == BigEndian(n / 256, k - 1);
    }
  }

  lemma {:induction false} ValueAfterZeros(z: nat, bs: Bytes)
    ensures Value(Zeros(z) + bs) == Value(bs)
    decreases z, |bs|
  {
    if bs != [] {
      assert (Zeros(z) + bs)[..z + |bs| - 1] == Zeros(z) + bs[..|bs| - 1];
      ValueAfterZeros(z, bs[..|bs| - 1]);
    } else if z > 0 {
      assert Zeros(z) + bs == Zeros(z) && Zeros(z)[..z - 1] == Zeros(z - 1);
      ValueAfterZeros(z - 1, []);
      assert Zeros(z - 1) + [] == Zeros(z - 1);
    }
  }

  lemma EightBytes()
    ensures Power256(8) == TWO_64
  {
    assert Power256(2) == 256 * 256;
    assert Power256(4) == 256 * (256 * Power256(2));
    assert Power256(6) == 256 * (256 * Power256(4));
    assert Power256(8) == 256 * (256 * Power256(6));
  }

  lemma ValueOfWord(n: nat)
    requires n < TWO_64
    ensures Value(Word(n)) == n
  {
    EightBytes();
    ValueOfBigEndian(n, 8);
    assert n % TWO_64 == n;
    ValueAfterZeros(24, BigEndian(n, 8));
  }

  // ----- Encoding ------------------------------------------------------------------------------------------

  function Padding(n: nat): (p: nat)
    ensures p < 32 && (n + p) % 32 == 0
  {
    (32 - n % 32) % 32
  }

  /** The tail of a string: its length, its bytes, and zeros up to a word boundary. */
  function StringTail(s: Bytes): (t: Bytes)
    ensures |t| == 32 + |s| + Padding(|s|)
  {
    Word(|s|) + s + Zeros(Padding(|s|))
  }

  method EncodeString(s: Bytes) returns (out: Bytes)
    ensures out == StringTail(s)
  {
    out := [];
    out := out + Word(|s|);
    out := out + s;
    var pad := (32 - |s| % 32) % 32;
    out := out + Zeros(pad);
  }

  function Joined(tails: seq<Bytes>): (bs: Bytes) {
    if tails == [] then [] else Joined(tails[..|tails| - 1]) + tails[|tails| - 1]
  }

  /** One offset word for each tail, the first tail starting at `start`. */
  function Heads(tails: seq<Bytes>, start: nat): (bs: Bytes)
    ensures |bs| == 32 * |tails|
  {
    if tails == [] then [] else
      Heads(tails[..|tails| - 1], start) + Word(start + |Joined(tails[..|tails| - 1])|)
  }

  /** Heads, then tails: offsets count from the first head word. */
  function Laid(tails: seq<Bytes>): (bs: Bytes)
    ensures |bs| == 32 * |tails| + |Joined(tails)|
  {
    Heads(tails, 32 * |tails|) + Joined(tails)
  }

  method LayHeads(tails: seq<Bytes>) returns (out: Bytes)
    ensures out == Heads(tails, 32 * |tails|)
  {
    out := [];
    var offset := 32 * |tails|;
    assert tails[..0] == [];
    for i := 0 to |tails|
      invariant out == Heads(tails[..i], 32 * |tails|) && offset == 32 * |tails| + |Joined(tails[..i])|
    {
      assert tails[..i + 1][..i] == tails[..i];
      out := out + Word(offset);
      offset := offset + |tails[i]|;
    }
    assert tails[..|tails|] == tails;
  }

  method LayOut(tails: seq<Bytes>) returns (out: Bytes)
    ensures out == Laid(tails)
  {
    var heads := LayHeads(tails);
    var joined: Bytes := [];
    assert tails[..0] == [];
    for i := 0 to |tails|
      invariant joined == Joined(tails[..i])
    {
      assert tails[..i + 1][..i] == tails[..i];
      joined := joined + tails[i];
    }
    assert tails[..|tails|] == tails;
    out := heads + joined;
  }

  function Tails(items: seq<Bytes>): (ts: seq<Bytes>)
    ensures |ts| == |items|
  {
    seq(|items|, i requires 0 <= i < |items| => StringTail(items[i]))
  }

  /** The tail of an array of strings. */
  function ArrayTail(items: seq<Bytes>): (t: Bytes) {
    Word(|items|) + Laid(Tails(items))
  }

  method EncodeStringArray(items: seq<Bytes>) returns (out: Bytes)
    ensures out == ArrayTail(items)
  {
    var tails: seq<Bytes> := [];
    for i := 0 to |items|
      invariant |tails| == i && forall j :: 0 <= j < i ==> tails[j] == StringTail(items[j])
    {
      var tail := EncodeString(items[i]);
      tails := tails + [tail];
    }
    assert tails == Tails(items);
    var laid := LayOut(tails);
    out := Word(|items|) + laid;
  }

  /** The five arguments of `registerSkill`. */
  datatype Args = Args(name: Bytes, version: Bytes, manifestCid: Bytes, description: Bytes, tags: seq<Bytes>)

  function ArgTails(a: Args): (ts: seq<Bytes>) {
    [StringTail(a.name), StringTail(a.version), StringTail(a.manifestCid), StringTail(a.description), ArrayTail(a.tags)]
  }

  /** The calldata behind the four bytes of the selector. */
  method EncodeRegisterSkill(selector: Bytes, a: Args) returns (out: Bytes)
    requires |selector| == 4
    ensures out == selector + Laid(ArgTails(a))
  {
    var name := EncodeString(a.name);
    var version := EncodeString(a.version);
    var cid := EncodeString(a.manifestCid);
    var description := EncodeString(a.description);
    var tags := EncodeStringArray(a.tags);
    var laid := LayOut([name, version, cid, description, tags]);
    out := selector + laid;
  }

  // ----- Decoding --------------------------------------------------------------------------------------------

  function ReadWord(data: Bytes, at: nat): (r: Option<nat>) {
    if at + 32 <= |data| then Some(Value(data[at..at + 32])) else None
  }

  function ReadString(data: Bytes, at: nat): (r: Option<Bytes>) {
    match ReadWord(data, at)
    case None => None
    case Some(n) => if at + 32 + n <= |data| then Some(data[at + 32..at + 32 + n]) else None
  }

  /** The first `n` strings whose offsets, from `base` on, stand there. */
  function ReadStrings(data: Bytes, base: nat, n: nat): (r: Option<seq<Bytes>>) {
    if n == 0 then Some([]) else
      match ReadStrings(data, base, n - 1)
      case None => None
      case Some(before) =>
        match ReadWord(data, base + 32 * (n - 1))
        case None => None
        case Some(offset) =>
          match ReadString(data, base + offset)
          case None => None
          case Some(s) => Some(before + [s])
  }

  function ReadArray(data: Bytes, at: nat): (r: Option<seq<Bytes>>) {
    match ReadWord(data, at)
    case None => None
    case Some(n) => ReadStrings(data, at + 32, n)
  }

  function ReadStringAt(data: Bytes, head: nat): (r: Option<Bytes>) {
    match ReadWord(data, head)
    case None => None
    case Some(offset) => ReadString(data, offset)
  }

  function Decode(data: Bytes): (r: Option<Args>) {
    match (ReadStringAt(data, 0), ReadStringAt(data, 32), ReadStringAt(data, 64), ReadStringAt(data, 96), ReadWord(data, 128))
    case (Some(name), Some(version), Some(cid), Some(description), Some(offset)) =>
      (match ReadArray(data, offset)
       case None => None
       case Some(tags) => Some(Args(name, version, cid, description, tags)))
    case _ => None
  }

  // ----- Round trip ---------------------------------------------------------------------------------------------

  /** `part` stands at `at` in the data. */
  predicate StandsAt(data: Bytes, at: nat, part: Bytes) {
    at + |part| <= |data| && data[at..at + |part|] == part
  }

  lemma PartOfPart(data: Bytes, at: nat, part: Bytes, from: nat, piece: Bytes)
    requires StandsAt(data, at, part) && StandsAt(part, from, piece)
    ensures StandsAt(data, at + from, piece)
  {
    forall k | 0 <= k < |piece| ensures data[at + from + k] == piece[k] {
      assert data[at..at + |part|][from + k] == part[from + k];
      assert part[from..from + |piece|][k] == piece[k];
    }
  }

  lemma InTheMiddle(before: Bytes, part: Bytes, after: Bytes)
    ensures StandsAt(before + part + after, |before|, part)
  {
  }

  lemma InLonger(data: Bytes, more: Bytes, at: nat, part: Bytes)
    requires StandsAt(data, at, part)
    ensures StandsAt(data + more, at, part)
  {
    assert (data + more)[at..at + |part|] == data[at..at + |part|];
  }

  lemma WordReads(data: Bytes, at: nat, n: nat)
    requires StandsAt(data, at, Word(n)) && n < TWO_64
    ensures ReadWord(data, at) == Some(n)
  {
    ValueOfWord(n);
  }

  /** A string is its length in one word, its bytes, and zeros up to the end of the last word that it needs. */
  lemma StringTailIs(s: Bytes)
    requires |s| < TWO_64
    ensures var t := StringTail(s);
            && ReadWord(t, 0) == Some(|s|) && t[32..32 + |s|] == s
            && (forall i :: 32 + |s| <= i < |t| ==> t[i] == 0)
            && |t| % 32 == 0 && 32 + |s| <= |t| < 64 + |s|
  {
    StringTailParts(Word(|s|), s, Padding(|s|));
    WordReads(StringTail(s), 0, |s|);
    WholeWords(|s|, Padding(|s|));
  }

  lemma WholeWords(n: nat, padding: nat)
    requires (n + padding) % 32 == 0
    ensures (32 + n + padding) % 32 == 0
  {
  }

  lemma StringTailParts(word: Bytes, s: Bytes, n: nat)
    requires |word| == 32
    ensures var t := word + s + Zeros(n);
            && StandsAt(t, 0, word) && t[32..32 + |s|] == s && |t| == 32 + |s| + n
            && forall i :: 32 + |s| <= i < |t| ==> t[i] == 0
  {
    assert (word + s + Zeros(n))[..32] == word;
  }

  lemma StringReads(data: Bytes, at: nat, s: Bytes)
    requires StandsAt(data, at, StringTail(s)) && |s| < TWO_64
    ensures ReadString(data, at) == Some(s)
  {
    var t := StringTail(s);
    assert StandsAt(t, 0, Word(|s|)) && StandsAt(t, 32, s);
    PartOfPart(data, at, t, 0, Word(|s|));
    PartOfPart(data, at, t, 32, s);
    WordReads(data, at, |s|);
  }

  /** Where the `i`-th tail starts. */
  function OffsetOf(tails: seq<Bytes>, i: nat): (n: nat)
    requires i <= |tails|
  {
    32 * |tails| + |Joined(tails[..i])|
  }

  lemma {:induction false} JoinedPart(tails: seq<Bytes>, i: nat)
    requires i < |tails|
    ensures StandsAt(Joined(tails), |Joined(tails[..i])|, tails[i])
    decreases |tails|
  {
    var n := |tails| - 1;
    var init := tails[..n];
    if i < n {
      JoinedPart(init, i);
      assert init[..i] == tails[..i] && init[i] == tails[i];
      var at := |Joined(tails[..i])|;
      assert Joined(tails)[at..at + |tails[i]|] == Joined(init)[at..at + |tails[i]|];
    } else {
      assert tails[..i] == init;
    }
  }

  lemma {:induction false} HeadsPart(tails: seq<Bytes>, start: nat, i: nat)
    requires i < |tails|
    ensures StandsAt(Heads(tails, start), 32 * i, Word(start + |Joined(tails[..i])|))
    decreases |tails|
  {
    var n := |tails| - 1;
    var init := tails[..n];
    if i < n {
      HeadsPart(init, start, i);
      assert init[..i] == tails[..i];
      InLonger(Heads(init, start), Word(start + |Joined(init)|), 32 * i, Word(start + |Joined(tails[..i])|));
    } else {
      assert tails[..i] == init;
    }
  }

  /** Every offset word points at its tail. */
  lemma OffsetsPointAtTails(tails: seq<Bytes>, i: nat)
    requires i < |tails|
    ensures StandsAt(Laid(tails), 32 * i, Word(OffsetOf(tails, i)))
    ensures StandsAt(Laid(tails), OffsetOf(tails, i), tails[i])
  {
    var heads, joined := Heads(tails, 32 * |tails|), Joined(tails);
    HeadsPart(tails, 32 * |tails|, i);
    JoinedPart(tails, i);
    assert StandsAt(Laid(tails), 0, heads) && StandsAt(Laid(tails), 32 * |tails|, joined);
    PartOfPart(Laid(tails), 0, heads, 32 * i, Word(OffsetOf(tails, i)));
    PartOfPart(Laid(tails), 32 * |tails|, joined, |Joined(tails[..i])|, tails[i]);
  }

  lemma OffsetFits(tails: seq<Bytes>, i: nat)
    requires i < |tails|
    ensures OffsetOf(tails, i) + |tails[i]| <= |Laid(tails)|
  {
    JoinedPart(tails, i);
  }

  lemma OneStringReads(data: Bytes, base: nat, items: seq<Bytes>, i: nat)
    requires i < |items| && StandsAt(data, base, Laid(Tails(items))) && |data| < TWO_64
    ensures var offset := OffsetOf(Tails(items), i);
            ReadWord(data, base + 32 * i) == Some(offset) && ReadString(data, base + offset) == Some(items[i])
  {
    var tails := Tails(items);
    var offset := OffsetOf(tails, i);
    OffsetsPointAtTails(tails, i);
    OffsetFits(tails, i);
    PartOfPart(data, base, Laid(tails), 32 * i, Word(offset));
    PartOfPart(data, base, Laid(tails), offset, tails[i]);
    WordReads(data, base + 32 * i, offset);
    assert |items[i]| <= |tails[i]|;
    StringReads(data, base + offset, items[i]);
  }

  /** The `i`-th string can be read through its offset word. */
  predicate Readable(data: Bytes, base: nat, i: nat, s: Bytes) {
    var offset := ReadWord(data, base + 32 * i);
    offset.Some? && ReadString(data, base + offset.value) == Some(s)
  }

  lemma ReadStringsStep(data: Bytes, base: nat, n: nat, before: seq<Bytes>, s: Bytes)
    requires n > 0 && ReadStrings(data, base, n - 1) == Some(before) && Readable(data, base, n - 1, s)
    ensures ReadStrings(data, base, n) == Some(before + [s])
  {
  }

  lemma {:induction false} StringsRead(data: Bytes, base: nat, items: seq<Bytes>, n: nat)
    requires n <= |items| && forall i :: 0 <= i < |items| ==> Readable(data, base, i, items[i])
    ensures ReadStrings(data, base, n) == Some(items[..n])
    decreases n
  {
    if n > 0 {
      StringsRead(data, base, items, n - 1);
      ReadStringsStep(data, base, n, items[..n - 1], items[n - 1]);
      assert items[..n] == items[..n - 1] + [items[n - 1]];
    }
  }

  lemma ArrayReads(data: Bytes, at: nat, items: seq<Bytes>)
    requires StandsAt(data, at, ArrayTail(items)) && |data| < TWO_64
    ensures ReadArray(data, at) == Some(items)
  {
    ArrayParts(data, at, items);
    WordReads(data, at, |items|);
    ItemsRead(data, at + 32, items);
    StringsRead(data, at + 32, items, |items|);
    assert items[..|items|] == items;
  }

  lemma ArrayParts(data: Bytes, at: nat, items: seq<Bytes>)
    requires StandsAt(data, at, ArrayTail(items))
    ensures StandsAt(data, at, Word(|items|)) && StandsAt(data, at + 32, Laid(Tails(items)))
    ensures |items| <= |data|
  {
    var t := ArrayTail(items);
    TwoParts(Word(|items|), Laid(Tails(items)));
    PartOfPart(data, at, t, 0, Word(|items|));
    PartOfPart(data, at, t, 32, Laid(Tails(items)));
    assert 32 * |items| <= |Laid(Tails(items))|;
  }

  lemma TwoParts(a: Bytes, b: Bytes)
    ensures StandsAt(a + b, 0, a) && StandsAt(a + b, |a|, b)
  {
  }

  lemma ItemsRead(data: Bytes, base: nat, items: seq<Bytes>)
    requires StandsAt(data, base, Laid(Tails(items))) && |data| < TWO_64
    ensures forall i :: 0 <= i < |items| ==> Readable(data, base, i, items[i])
  {
    forall i | 0 <= i < |items| ensures Readable(data, base, i, items[i]) {
      OneStringReads(data, base, items, i);
    }
  }

  lemma ArgReads(a: Args, i: nat)
    requires i < 4 && |Laid(ArgTails(a))| < TWO_64
    ensures ReadStringAt(Laid(ArgTails(a)), 32 * i) == Some([a.name, a.version, a.manifestCid, a.description][i])
  {
    var data, tails := Laid(ArgTails(a)), ArgTails(a);
    OffsetsPointAtTails(tails, i);
    OffsetFits(tails, i);
    WordReads(data, 32 * i, OffsetOf(tails, i));
    var s := [a.name, a.version, a.manifestCid, a.description][i];
    assert tails[i] == StringTail(s);
    StringReads(data, OffsetOf(tails, i), s);
  }

  /** Decoding what was encoded gives the same five arguments, for all strings and tag lists whose encoding
      is not longer than a 64-bit length can say. */
  lemma DecodeEncode(a: Args)
    requires |Laid(ArgTails(a))| < TWO_64
    ensures Decode(Laid(ArgTails(a))) == Some(a)
  {
    var data, tails := Laid(ArgTails(a)), ArgTails(a);
    ArgReads(a, 0);
    ArgReads(a, 1);
    ArgReads(a, 2);
    ArgReads(a, 3);
    OffsetsPointAtTails(tails, 4);
    OffsetFits(tails, 4);
    WordReads(data, 128, OffsetOf(tails, 4));
    ArrayReads(data, OffsetOf(tails, 4), a.tags);
  }

  /** So different arguments have different calldata. */
  lemma EncodingIsInjective(a: Args, b: Args)
    requires |Laid(ArgTails(a))| < TWO_64 && Laid(ArgTails(a)) == Laid(ArgTails(b))
    ensures a == b
  {
    DecodeEncode(a);
    DecodeEncode(b);
  }

  // ----- The skill's id --------------------------------------------------------------------------------------------

  /** What is hashed: a head of three words, then both strings. */
  function SkillPreimage(owner: Bytes, name: Bytes, version: Bytes): (bs: Bytes)
    requires |owner| == 20
  {
    Zeros(12) + owner + Word(96) + Word(96 + |StringTail(name)|) + StringTail(name) + StringTail(version)
  }

  method SkillHashInput(owner: Bytes, name: Bytes, version: Bytes) returns (input: Bytes)
    requires |owner| == 20
    ensures input == SkillPreimage(owner, name, version)
  {
    var nameTail := EncodeString(name);
    var versionTail := EncodeString(version);
    var ownerWord := Zeros(12) + owner;
    var headLen := 32 * 3;
    input := ownerWord;
    input := input + Word(headLen);
    input := input + Word(headLen + |nameTail|);
    input := input + nameTail;
    input := input + versionTail;
  }

  lemma SecondOfSix(a: Bytes, b: Bytes, c: Bytes, d: Bytes, e: Bytes, f: Bytes)
    ensures StandsAt(a + b + c + d + e + f, 0, a) && StandsAt(a + b + c + d + e + f, |a|, b)
  {
    InTheMiddle([], a, b + c + d + e + f);
    InTheMiddle(a, b, c + d + e + f);
    assert a + b + c + d + e + f == [] + a + (b + c + d + e + f) == a + b + (c + d + e + f);
  }

  lemma ThirdOfSix(a: Bytes, b: Bytes, c: Bytes, d: Bytes, e: Bytes, f: Bytes)
    ensures StandsAt(a + b + c + d + e + f, |a| + |b|, c)
  {
    InTheMiddle(a + b, c, d + e + f);
    assert a + b + c + d + e + f == a + b + c + (d + e + f);
  }

  lemma FourthOfSix(a: Bytes, b: Bytes, c: Bytes, d: Bytes, e: Bytes, f: Bytes)
    ensures StandsAt(a + b + c + d + e + f, |a| + |b| + |c|, d)
  {
    InTheMiddle(a + b + c, d, e + f);
    assert a + b + c + d + e + f == a + b + c + d + (e + f);
  }

  lemma LastOfSix(a: Bytes, b: Bytes, c: Bytes, d: Bytes, e: Bytes, f: Bytes)
    ensures StandsAt(a + b + c + d + e + f, |a| + |b| + |c| + |d|, e)
    ensures StandsAt(a + b + c + d + e + f, |a| + |b| + |c| + |d| + |e|, f)
  {
    InTheMiddle(a + b + c + d, e, f);
    InTheMiddle(a + b + c + d + e, f, []);
    assert a + b + c + d + e + f + [] == a + b + c + d + e + f;
  }

  lemma PreimageParts(owner: Bytes, name: Bytes, version: Bytes)
    requires |owner| == 20
    ensures var p := SkillPreimage(owner, name, version);
            && StandsAt(p, 0, Zeros(12)) && StandsAt(p, 12, owner)
            && StandsAt(p, 32, Word(96))
            && StandsAt(p, 64, Word(96 + |StringTail(name)|))
            && StandsAt(p, 96, StringTail(name))
            && StandsAt(p, 96 + |StringTail(name)|, StringTail(version))
  {
    var offset := Word(96 + |StringTail(name)|);
    SecondOfSix(Zeros(12), owner, Word(96), offset, StringTail(name), StringTail(version));
    ThirdOfSix(Zeros(12), owner, Word(96), offset, StringTail(name), StringTail(version));
    FourthOfSix(Zeros(12), owner, Word(96), offset, StringTail(name), StringTail(version));
    LastOfSix(Zeros(12), owner, Word(96), offset, StringTail(name), StringTail(version));
  }

  /** The hashed bytes are what the contract's `abi.encode(owner, name, version)` gives: read back as three
      arguments they are the owner's address in the low 20 bytes of a word, and both strings; each string fills
      whole words and ends in zeros, and nothing else follows. */
  lemma PreimageReads(owner: Bytes, name: Bytes, version: Bytes)
    requires |owner| == 20 && |SkillPreimage(owner, name, version)| < TWO_64
    ensures var p := SkillPreimage(owner, name, version);
            && ReadWord(p, 0) == Some(Value(owner)) && p[..12] == Zeros(12) && p[12..32] == owner
            && ReadStringAt(p, 32) == Some(name) && ReadWord(p, 32) == Some(96)
            && ReadStringAt(p, 64) == Some(version) && ReadWord(p, 64) == Some(96 + |StringTail(name)|)
            && |p| == 96 + |StringTail(name)| + |StringTail(version)|
  {
    var p := SkillPreimage(owner, name, version);
    PreimageParts(owner, name, version);
    assert p[0..32] == Zeros(12) + owner;
    ValueAfterZeros(12, owner);
    WordReads(p, 32, 96);
    WordReads(p, 64, 96 + |StringTail(name)|);
    StringReads(p, 96, name);
    StringReads(p, 96 + |StringTail(name)|, version);
  }

  /** No two skills share an id unless the hash collides. */
  lemma PreimageIsInjective(
      owner: Bytes, name: Bytes, version: Bytes, owner1: Bytes, name1: Bytes, version1: Bytes)
    requires |owner| == 20 && |owner1| == 20 && |SkillPreimage(owner, name, version)| < TWO_64
    requires SkillPreimage(owner, name, version) == SkillPreimage(owner1, name1, version1)
    ensures owner == owner1 && name == name1 && version == version1
  {
    PreimageReads(owner, name, version);
    PreimageReads(owner1, name1, version1);
  }

  /** The layout of the earlier deployment: no lengths. */
  function PackedPreimage(owner: Bytes, name: Bytes, version: Bytes): (bs: Bytes) {
    owner + name + version
  }

  /** There, two skills that differ only in where the name ends share an id; so do any two whose name and
      version join to the same bytes. */
  lemma PackedCollidesExactly(owner: Bytes, name: Bytes, version: Bytes, name1: Bytes, version1: Bytes)
    ensures PackedPreimage(owner, name, version) == PackedPreimage(owner, name1, version1) <==>
            name + version == name1 + version1
  {
    var a, b := name + version, name1 + version1;
    assert PackedPreimage(owner, name, version) == owner + a;
    assert PackedPreimage(owner, name1, version1) == owner + b;
    assert (owner + a)[|owner|..] == a && (owner + b)[|owner|..] == b;
  }

  lemma PackedIsNotInjective(owner: Bytes)
    ensures exists name: Bytes, version: Bytes, name1: Bytes, version1: Bytes ::
              name != name1 && PackedPreimage(owner, name, version) == PackedPreimage(owner, name1, version1)
  {
    var name: Bytes, version: Bytes, name1: Bytes, version1: Bytes := [115, 49], [46, 48], [115], [49, 46, 48];
    assert name + version == name1 + version1;
    PackedCollidesExactly(owner, name, version, name1, version1);
    assert name != name1;
  }
}
