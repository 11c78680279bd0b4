/**
Sealed credentials (packages/schema/src/sealed.ts): the envelope's printer and parser, the keyring,
and sealing and opening over an abstract cipher.
*/
module Sealed {
  import opened Prelude
  import opened Text

  // ---- Envelopes ----

  const PREFIX := "sealed:v1:"

  predicate Hex(s: string) {
    forall i :: 0 <= i < |s| ==> '0' <= s[i] <= '9' || 'a' <= s[i] <= 'f'
  }

  predicate Base64Url(s: string) {
    forall i :: 0 <= i < |s| ==>
      'A' <= s[i] <= 'Z' || 'a' <= s[i] <= 'z' || '0' <= s[i] <= '9' || s[i] == '_' || s[i] == '-'
  }

  predicate IsIv(s: string) { |s| == 16 && Base64Url(s) }

  predicate IsTag(s: string) { |s| == 22 && Base64Url(s) }

  predicate IsKid(s: string) { |s| == 16 && Hex(s) }

  datatype Envelope = Envelope(kid: string, iv: string, ct: string, tag: string) {
    predicate WellFormed() { IsKid(kid) && IsIv(iv) && Base64Url(ct) && IsTag(tag) }

    function Print(): string {
      PREFIX + kid + ":" + iv + ":" + ct + ":" + tag
    }
  }

  /** `ENVELOPE_RE.exec`: every part but the ciphertext has a fixed width. */
  function Parse(s: string): Option<Envelope> {
    if |s| < 67 then None else
    var e := Envelope(s[10..26], s[27..43], s[44..|s| - 23], s[|s| - 22..]);
    if s[..10] == PREFIX && s[26] == ':' && s[43] == ':' && s[|s| - 23] == ':' && e.WellFormed() then Some(e) else None
  }

  lemma {:induction false} PartsOf(e: Envelope)
    requires e.WellFormed()
    ensures var s := e.Print();
      && |s| == 67 + |e.ct| && s[..10] == PREFIX && s[10..26] == e.kid && s[26] == ':' && s[27..43] == e.iv
      && s[43] == ':' && s[44..|s| - 23] == e.ct && s[|s| - 23] == ':' && s[|s| - 22..] == e.tag
  {
  }

  /** The parser accepts exactly what the printer writes for well-formed parts, and returns those parts. */
  lemma {:induction false} ParseExactly(s: string, e: Envelope)
    ensures Parse(s) == Some(e) <==> e.WellFormed() && s == e.Print()
  {
    if e.WellFormed() && s == e.Print() {
      PartsOf(e);
    }
    if Parse(s) == Some(e) {
      assert s == s[..10] + s[10..26] + [s[26]] + s[27..43] + [s[43]] + s[44..|s| - 23] + [s[|s| - 23]] + s[|s| - 22..];
    }
  }

  predicate IsSealed(value: string) { Parse(value).Some? }

  // ---- Bindings ----

  function LowerChar(c: char): char {
    if 'A' <= c <= 'Z' then c - 'A' + 'a' else c
  }

  function Lower(s: string): (r: string)
    ensures |r| == |s| && forall i :: 0 <= i < |s| ==> r[i] == LowerChar(s[i])
  {
    if s == "" then "" else [LowerChar(s[0])] + Lower(s[1..])
  }

  /** `UUID_RE`, which ignores case. */
  predicate IsUuid(s: string) {
    && |s| == 36
    && forall i :: 0 <= i < 36 ==>
         if i == 8 || i == 13 || i == 18 || i == 23 then s[i] == '-'
         else '0' <= s[i] <= '9' || 'a' <= s[i] <= 'f' || 'A' <= s[i] <= 'F'
  }

  type Uuid = s: string | IsUuid(s) witness "00000000-0000-0000-0000-000000000000"

  function Aad(orgId: Uuid, flockId: Uuid): string {
    "flock:" + Lower(orgId) + ":" + Lower(flockId)
  }

  lemma {:induction false} AadParts(o: string, f: string)
    requires |o| == 36
    ensures var s := "flock:" + o + ":" + f; s[6..42] == o && s[43..] == f
  {
  }

  /** No pair of ids spells another pair's additional data, but for case. */
  lemma {:induction false} AadInjective(o: Uuid, f: Uuid, o': Uuid, f': Uuid)
    ensures Aad(o, f) == Aad(o', f') <==> Lower(o) == Lower(o') && Lower(f) == Lower(f')
  {
    AadParts(Lower(o), Lower(f));
    AadParts(Lower(o'), Lower(f'));
  }

  // ---- The cipher ----

  datatype Sealing = Sealing(ct: string, tag: string)

  /**
  AES-256-GCM, key derivation and the key id, left abstract. Ivs, ciphertexts and tags are in
  base64url; keys are opaque strings.
  */
  datatype Crypto = Crypto(
    derive: string -> string,
    kidOf: string -> string,
    enc: (string, string, string, string) -> Sealing,
    dec: (string, string, string, string, string) -> Option<string>)

  ghost predicate Inverts(c: Crypto) {
    && (forall key :: IsKid(c.kidOf(key)))
    && (forall key, iv, ad, pt :: IsIv(iv) ==>
          var s := c.enc(key, iv, ad, pt);
          Base64Url(s.ct) && IsTag(s.tag) && c.dec(key, iv, ad, s.ct, s.tag) == Some(pt))
  }

  /** Additional data other than what a value was sealed with is refused. */
  ghost predicate Authenticates(c: Crypto) {
    forall key, iv, ad, pt, ad' :: IsIv(iv) && ad' != ad ==>
      var s := c.enc(key, iv, ad, pt);
      c.dec(key, iv, ad', s.ct, s.tag) == None
  }

  // ---- Keyrings ----

  datatype SealKey = SealKey(kid: string, key: string)

  datatype Keyring = Keyring(current: SealKey, byKid: map<string, SealKey>) {
    predicate Valid() {
      && IsKid(current.kid) && current.kid in byKid && byKid[current.kid] == current
      && forall kid :: kid in byKid ==> byKid[kid].kid == kid
    }
  }

  function Only(ring: Keyring): Keyring {
    Keyring(ring.current, map[ring.current.kid := ring.current])
  }

  /** `KEY_RE`: 43 characters of base64 and one `=`. */
  predicate IsKeyText(s: string) {
    && |s| == 44 && s[43] == '='
    && forall i :: 0 <= i < 43 ==>
         'A' <= s[i] <= 'Z' || 'a' <= s[i] <= 'z' || '0' <= s[i] <= '9' || s[i] == '+' || s[i] == '/'
  }

  function ParseSealKey(c: Crypto, text: string): Option<SealKey> {
    if !IsKeyText(text) then None else
    var key := c.derive(text);
    Some(SealKey(c.kidOf(key), key))
  }

  datatype KeyringError = Missing | BadKey | Repeated

  datatype KeyringResult = Loaded(ring: Keyring) | Refused(error: KeyringError)

  function KidOfText(c: Crypto, text: string): string {
    c.kidOf(c.derive(text))
  }

  /** The keys of an environment that loads: all well spelled, no two with one id. */
  predicate KeysFit(c: Crypto, texts: seq<string>) {
    && (forall i :: 0 <= i < |texts| ==> IsKeyText(texts[i]))
    && (forall i, j :: 0 <= i < j < |texts| ==> KidOfText(c, texts[i]) != KidOfText(c, texts[j]))
  }

  predicate Entered(c: Crypto, byKid: map<string, SealKey>, text: string) {
    var kid := KidOfText(c, text);
    kid in byKid && byKid[kid] == SealKey(kid, c.derive(text))
  }

  predicate Named(c: Crypto, texts: seq<string>, kid: string) {
    exists i :: 0 <= i < |texts| && KidOfText(c, texts[i]) == kid
  }

  /** The map holds the keys of these texts, one entry for each, and nothing else. */
  predicate Holds(c: Crypto, byKid: map<string, SealKey>, texts: seq<string>) {
    && KeysFit(c, texts) && |byKid| == |texts|
    && (forall i :: 0 <= i < |texts| ==> Entered(c, byKid, texts[i]))
    && (forall kid :: kid in byKid ==> Named(c, texts, kid))
  }

  datatype Gathered = Keys(byKid: map<string, SealKey>) | Failed(error: KeyringError)

  /** One more key for the map, unless it is misspelled or its id is there already. */
  function Gather(c: Crypto, byKid: map<string, SealKey>, text: string): Gathered {
    match ParseSealKey(c, text)
    case None => Failed(BadKey)
    case Some(key) => if key.kid in byKid then Failed(Repeated) else Keys(byKid[key.kid := key])
  }

  function GatherAll(c: Crypto, texts: seq<string>): Gathered {
    if texts == [] then Keys(map[]) else
    match GatherAll(c, texts[..|texts| - 1])
    case Failed(error) => Failed(error)
    case Keys(byKid) => Gather(c, byKid, texts[|texts| - 1])
  }

  lemma {:induction false} FailureStays(c: Crypto, texts: seq<string>, n: nat)
    requires n <= |texts| && GatherAll(c, texts[..n]).Failed?
    ensures GatherAll(c, texts) == GatherAll(c, texts[..n])
  {
    if n == |texts| {
      assert texts[..n] == texts;
    } else {
      assert texts[..|texts| - 1][..n] == texts[..n];
      FailureStays(c, texts[..|texts| - 1], n);
    }
  }

  /** `previous` is the list of previous keys once split at the commas, trimmed and rid of blanks. */
  method LoadSealKeyring(c: Crypto, raw: string, previous: seq<string>) returns (r: KeyringResult)
    ensures r.Loaded? <==> raw != "" && GatherAll(c, [raw] + previous).Keys?
    ensures r.Loaded? ==> GatherAll(c, [raw] + previous) == Keys(r.ring.byKid) && ParseSealKey(c, raw) == Some(r.ring.current)
    ensures raw != "" && r.Refused? ==> GatherAll(c, [raw] + previous) == Failed(r.error)
  {
    if raw == "" { return Refused(Missing); }
    ghost var texts := [raw] + previous;
    assert texts[..1] == [raw] && [raw][..0] == [];
    var first := ParseSealKey(c, raw);
    if first.None? {
      FailureStays(c, texts, 1);
      return Refused(BadKey);
    }
    var byKid := map[first.value.kid := first.value];
    for i := 0 to |previous|
      invariant GatherAll(c, texts[..i + 1]) == Keys(byKid)
    {
      assert texts[..i + 2][..i + 1] == texts[..i + 1] && texts[..i + 2][i + 1] == previous[i];
      var key := ParseSealKey(c, previous[i]);
      if key.None? {
        FailureStays(c, texts, i + 2);
        return Refused(BadKey);
      }
      if key.value.kid in byKid {
        FailureStays(c, texts, i + 2);
        return Refused(Repeated);
      }
      byKid := byKid[key.value.kid := key.value];
    }
    assert texts[..|previous| + 1] == texts;
    return Loaded(Keyring(first.value, byKid));
  }

  lemma {:induction false} NamedOneMore(c: Crypto, texts: seq<string>, text: string, kid: string)
    requires Named(c, texts, kid) || KidOfText(c, text) == kid
    ensures Named(c, texts + [text], kid)
  {
    var all := texts + [text];
    assert all[|texts|] == text;
    if i :| 0 <= i < |texts| && KidOfText(c, texts[i]) == kid {
      assert all[i] == texts[i];
    }
  }

  lemma {:induction false} FitsOneMore(c: Crypto, byKid: map<string, SealKey>, texts: seq<string>, text: string)
    requires Holds(c, byKid, texts) && IsKeyText(text) && KidOfText(c, text) !in byKid
    ensures KeysFit(c, texts + [text])
  {
    var all := texts + [text];
    assert all[|texts|] == text && forall i :: 0 <= i < |texts| ==> all[i] == texts[i];
  }

  lemma {:induction false} HoldsOneMore(c: Crypto, byKid: map<string, SealKey>, texts: seq<string>, text: string)
    requires Holds(c, byKid, texts) && IsKeyText(text) && KidOfText(c, text) !in byKid
    ensures Holds(c, byKid[KidOfText(c, text) := SealKey(KidOfText(c, text), c.derive(text))], texts + [text])
  {
    var all, kid := texts + [text], KidOfText(c, text);
    var more := byKid[kid := SealKey(kid, c.derive(text))];
    FitsOneMore(c, byKid, texts, text);
    forall i | 0 <= i < |all| ensures Entered(c, more, all[i]) {
      assert i < |texts| ==> Entered(c, byKid, texts[i]) && KidOfText(c, texts[i]) != kid;
    }
    forall k | k in more ensures Named(c, all, k) {
      assert k != kid ==> Named(c, texts, k);
      NamedOneMore(c, texts, text, k);
    }
  }

  lemma {:induction false} GatherStep(c: Crypto, byKid: map<string, SealKey>, texts: seq<string>, text: string)
    requires Holds(c, byKid, texts)
    ensures Gather(c, byKid, text).Keys? <==> KeysFit(c, texts + [text])
    ensures Gather(c, byKid, text).Keys? ==> Holds(c, Gather(c, byKid, text).byKid, texts + [text])
  {
    var all := texts + [text];
    assert all[|texts|] == text && forall i :: 0 <= i < |texts| ==> all[i] == texts[i];
    if IsKeyText(text) && KidOfText(c, text) !in byKid {
      HoldsOneMore(c, byKid, texts, text);
    } else if IsKeyText(text) {
      assert Named(c, texts, KidOfText(c, text));
      var i :| 0 <= i < |texts| && KidOfText(c, texts[i]) == KidOfText(c, text);
      assert KidOfText(c, all[i]) == KidOfText(c, all[|texts|]);
    }
  }

  /** A second key with one id is what the loader refuses: the keys load just when they fit together. */
  lemma {:induction false} GatherExactly(c: Crypto, texts: seq<string>)
    ensures GatherAll(c, texts).Keys? <==> KeysFit(c, texts)
    ensures GatherAll(c, texts).Keys? ==> Holds(c, GatherAll(c, texts).byKid, texts)
  {
    if texts != [] {
      var n := |texts| - 1;
      GatherExactly(c, texts[..n]);
      assert texts == texts[..n] + [texts[n]];
      assert KeysFit(c, texts) ==> KeysFit(c, texts[..n]);
      if GatherAll(c, texts[..n]).Keys? {
        GatherStep(c, GatherAll(c, texts[..n]).byKid, texts[..n], texts[n]);
      }
    }
  }

  /** A loaded keyring is one that sealing and opening may rely on. */
  lemma {:induction false} LoadedIsValid(c: Crypto, raw: string, previous: seq<string>, ring: Keyring)
    requires Inverts(c) && GatherAll(c, [raw] + previous) == Keys(ring.byKid) && ParseSealKey(c, raw) == Some(ring.current)
    ensures ring.Valid() && |ring.byKid| == 1 + |previous|
  {
    var texts := [raw] + previous;
    GatherExactly(c, texts);
    assert texts[0] == raw;
    assert IsKid(c.kidOf(c.derive(raw)));
    forall kid | kid in ring.byKid ensures ring.byKid[kid].kid == kid {
      assert Named(c, texts, kid);
      var i :| 0 <= i < |texts| && KidOfText(c, texts[i]) == kid;
    }
  }

  // ---- Sealing and opening ----

  function Seal(c: Crypto, plaintext: string, ring: Keyring, orgId: Uuid, flockId: Uuid, iv: string): string {
    var s := c.enc(ring.current.key, iv, Aad(orgId, flockId), plaintext);
    Envelope(ring.current.kid, iv, s.ct, s.tag).Print()
  }

  datatype UnsealReason = Malformed | UnknownKey | Tampered

  datatype Opened = Plaintext(text: string) | Unsealed(reason: UnsealReason)

  function OpenSealed(c: Crypto, value: string, ring: Keyring, orgId: Uuid, flockId: Uuid): Opened {
    match Parse(value)
    case None => Unsealed(Malformed)
    case Some(e) =>
      if e.kid !in ring.byKid then Unsealed(UnknownKey) else
      match c.dec(ring.byKid[e.kid].key, e.iv, Aad(orgId, flockId), e.ct, e.tag)
      case None => Unsealed(Tampered)
      case Some(text) => Plaintext(text)
  }

  predicate NeedsReseal(value: string, ring: Keyring) {
    Parse(value).None? || Parse(value).value.kid != ring.current.kid
  }

  lemma {:induction false} SealParses(c: Crypto, plaintext: string, ring: Keyring, orgId: Uuid, flockId: Uuid, iv: string)
    requires Inverts(c) && IsKid(ring.current.kid) && IsIv(iv)
    ensures var s := c.enc(ring.current.key, iv, Aad(orgId, flockId), plaintext);
      Parse(Seal(c, plaintext, ring, orgId, flockId, iv)) == Some(Envelope(ring.current.kid, iv, s.ct, s.tag))
  {
    var s := c.enc(ring.current.key, iv, Aad(orgId, flockId), plaintext);
    ParseExactly(Seal(c, plaintext, ring, orgId, flockId, iv), Envelope(ring.current.kid, iv, s.ct, s.tag));
  }

  /** What is sealed under a ring opens under any ring that holds its current key, and needs no reseal. */
  lemma {:induction false} SealOpens(c: Crypto, plaintext: string, ring: Keyring, orgId: Uuid, flockId: Uuid, iv: string, later: Keyring)
    requires Inverts(c) && ring.Valid() && IsIv(iv)
    requires ring.current.kid in later.byKid && later.byKid[ring.current.kid] == ring.current
    ensures var value := Seal(c, plaintext, ring, orgId, flockId, iv);
      IsSealed(value) && !NeedsReseal(value, ring) && OpenSealed(c, value, later, orgId, flockId) == Plaintext(plaintext)
  {
    SealParses(c, plaintext, ring, orgId, flockId, iv);
  }

  /** An envelope moved to another row does not open there, and says so. */
  lemma {:induction false} MovedEnvelopeRefused(c: Crypto, plaintext: string, ring: Keyring, o: Uuid, f: Uuid, o': Uuid, f': Uuid, iv: string)
    requires Inverts(c) && Authenticates(c) && ring.Valid() && IsIv(iv)
    ensures OpenSealed(c, Seal(c, plaintext, ring, o, f, iv), ring, o', f') ==
      if Lower(o) == Lower(o') && Lower(f) == Lower(f') then Plaintext(plaintext) else Unsealed(Tampered)
  {
    SealParses(c, plaintext, ring, o, f, iv);
    AadInjective(o, f, o', f');
  }

  // ---- The laws can hold ----

  /** Any text in digits and dashes. */
  function Code(s: string): string {
    if s == "" then "" else Decimal(s[0] as nat) + "-" + Code(s[1..])
  }

  lemma {:induction false} CodeChars(s: string)
    ensures forall i :: 0 <= i < |Code(s)| ==> '0' <= Code(s)[i] <= '9' || Code(s)[i] == '-'
  {
    if s != "" {
      DecimalChars(s[0] as nat);
      CodeChars(s[1..]);
    }
  }

  lemma {:induction false} SplitAt(a: string, b: string, a': string, b': string, sep: char)
    requires a + [sep] + b == a' + [sep] + b' && sep !in a && sep !in a'
    ensures a == a' && b == b'
  {
    var s := a + [sep] + b;
    assert s[|a|] == sep && s[|a'|] == sep;
    assert forall i :: 0 <= i < |a| ==> s[i] == a[i] && s[i] != sep;
    assert forall i :: 0 <= i < |a'| ==> s[i] == a'[i] && s[i] != sep;
    assert a == s[..|a|] && a' == s[..|a'|] && b == s[|a| + 1..] && b' == s[|a'| + 1..];
  }

  lemma {:induction false} CodeInjective(s: string, t: string)
    requires Code(s) == Code(t)
    ensures s == t
  {
    if s != "" && t != "" {
      DecimalChars(s[0] as nat);
      DecimalChars(t[0] as nat);
      SplitAt(Decimal(s[0] as nat), Code(s[1..]), Decimal(t[0] as nat), Code(t[1..]), '-');
      DecimalInjective(s[0] as nat, t[0] as nat);
      CodeInjective(s[1..], t[1..]);
    }
  }

  ghost function Spelling(ad: string, pt: string): string {
    Code(ad) + ['_'] + Code(pt)
  }

  lemma {:induction false} SpellingInjective(ad: string, pt: string, ad': string, pt': string)
    ensures Spelling(ad, pt) == Spelling(ad', pt') <==> ad == ad' && pt == pt'
    ensures Base64Url(Spelling(ad, pt))
  {
    CodeChars(ad);
    CodeChars(ad');
    CodeChars(pt);
    if Spelling(ad, pt) == Spelling(ad', pt') {
      SplitAt(Code(ad), Code(pt), Code(ad'), Code(pt'), '_');
      CodeInjective(ad, ad');
      CodeInjective(pt, pt');
    }
  }

  ghost function Unspell(ad: string, ct: string): Option<string> {
    if exists pt :: ct == Spelling(ad, pt) then
      var pt :| ct == Spelling(ad, pt);
      Some(pt)
    else None
  }

  lemma {:induction false} Unspelled(ad: string, pt: string, ad': string)
    ensures Unspell(ad', Spelling(ad, pt)) == if ad' == ad then Some(pt) else None
  {
    forall pt' ensures Spelling(ad, pt) == Spelling(ad', pt') <==> ad == ad' && pt == pt' {
      SpellingInjective(ad, pt, ad', pt');
    }
  }

  /** The two laws contradict neither each other nor the formats: some cipher meets both. */
  lemma {:induction false} LawsCanHold() returns (c: Crypto)
    ensures Inverts(c) && Authenticates(c)
  {
    var kid, tag := "0000000000000000", "0000000000000000000000";
    c := Crypto(text => text, key => kid,
                (key, iv, ad, pt) => Sealing(Spelling(ad, pt), tag),
                (key, iv, ad, ct, tag) => Unspell(ad, ct));
    assert IsKid(kid) && IsTag(tag);
    forall key, iv, ad, pt | IsIv(iv)
      ensures var s := c.enc(key, iv, ad, pt);
        Base64Url(s.ct) && IsTag(s.tag) && c.dec(key, iv, ad, s.ct, s.tag) == Some(pt)
    {
      assert c.enc(key, iv, ad, pt) == Sealing(Spelling(ad, pt), tag);
      SpellingInjective(ad, pt, ad, pt);
      Unspelled(ad, pt, ad);
    }
    forall key, iv, ad, pt, ad' | IsIv(iv) && ad' != ad
      ensures var s := c.enc(key, iv, ad, pt); c.dec(key, iv, ad', s.ct, s.tag) == None
    {
      assert c.enc(key, iv, ad, pt) == Sealing(Spelling(ad, pt), tag);
      Unspelled(ad, pt, ad');
    }
  }
}
