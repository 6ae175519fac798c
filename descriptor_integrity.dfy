/**
 * Tool-descriptor integrity: hash pins of the form `sha256:<64 lowercase hex>`,
 * a per-name allowlist of pins, and the decision tree that allows or denies a
 * descriptor given an optional explicit pin.
 *
 * Canonical JSON serialisation followed by SHA-256 is a parameter `digest`
 * whose result is a 64-character lowercase hex string.
 */
module DescriptorIntegrity {
  import opened Wrappers
  import opened Text
  import A = Actions

  const HashPrefix := "sha256:"
  const InvalidPinMessage := "Invalid hash pin format; expected a 64-character SHA-256 hex digest"

  predicate IsHexChar(c: char) {
    '0' <= c <= '9' || 'a' <= c <= 'f'
  }

  /** The full match of `^[0-9a-f]{64}$`. */
  predicate IsHexDigest(s: string) {
    |s| == 64 && forall i | 0 <= i < |s| :: IsHexChar(s[i])
  }

  /** A normalised pin: the prefix followed by a hex digest. */
  predicate IsPin(s: string) {
    |s| == 71 && s[..7] == HashPrefix && IsHexDigest(s[7..])
  }

  /** A string of `n` zeros, the witness of `HexDigest`. */
  function Zeros(n: nat): (s: string)
    ensures |s| == n && forall i | 0 <= i < n :: s[i] == '0'
  {
    if n == 0 then [] else Zeros(n - 1) + ['0']
  }

  /** The result of the abstract digest. */
  type HexDigest = s: string | IsHexDigest(s) witness Zeros(64)

  // ---------------------------------------------------------------------------
  // Pin normalisation
  // ---------------------------------------------------------------------------

  /** One leading `sha256:` removed, when present. */
  function DropPrefix(value: string): (v: string)
    ensures |v| == |value| || |v| == |value| - 7
  {
    if |value| >= 7 && value[..7] == HashPrefix then value[7..] else value
  }

  /** The candidate digest: stripped, lower-cased, with one leading `sha256:` removed. */
  function PinBody(pin: string): string {
    DropPrefix(Lower(Strip(pin)))
  }

  /** `normalize_hash_pin`: the prefixed digest, or the format error. */
  function NormalizeHashPin(pin: string): (r: Result<string, string>)
    ensures r.Ok? ==> IsPin(r.value)
    ensures r.Err? ==> r.error == InvalidPinMessage
  {
    var value := PinBody(pin);
    if IsHexDigest(value) then
      assert (HashPrefix + value)[7..] == value;
      Ok(HashPrefix + value)
    else Err(InvalidPinMessage)
  }

  /** A character that neither `strip()` nor `lower()` changes. */
  predicate PlainChar(c: char) {
    '0' <= c <= '9' || 'a' <= c <= 'z' || c == ':'
  }

  predicate Plain(s: string) {
    forall i | 0 <= i < |s| :: PlainChar(s[i])
  }

  lemma PlainAppend(a: string, b: string)
    requires Plain(a) && Plain(b)
    ensures Plain(a + b)
  {
    forall i | 0 <= i < |a + b| ensures PlainChar((a + b)[i]) {
      if i >= |a| { assert (a + b)[i] == b[i - |a|]; }
    }
  }

  lemma PrefixPlain()
    ensures Plain(HashPrefix)
  {
  }

  lemma PlainBody(s: string)
    requires Plain(s)
    ensures PinBody(s) == DropPrefix(s)
  {
    StripTrimmed(s);
    assert Lower(s) == s;
  }

  lemma HexPlain(h: string)
    requires IsHexDigest(h)
    ensures Plain(h) && h[..7] != HashPrefix
  {
    assert IsHexChar(h[0]);
    assert h[..7][0] == h[0];
  }

  /** The bare digest normalises to the prefixed form. */
  lemma AcceptsBare(h: string)
    requires IsHexDigest(h)
    ensures NormalizeHashPin(h) == Ok(HashPrefix + h)
  {
    HexPlain(h);
    PlainBody(h);
  }

  /** The prefixed digest normalises to itself. */
  lemma AcceptsPrefixed(h: string)
    requires IsHexDigest(h)
    ensures NormalizeHashPin(HashPrefix + h) == Ok(HashPrefix + h)
  {
    var p := HashPrefix + h;
    HexPlain(h);
    PrefixPlain();
    PlainAppend(HashPrefix, h);
    PlainBody(p);
    assert p[..7] == HashPrefix;
    assert p[7..] == h;
  }

  /** Normalising a normalised pin changes nothing. */
  lemma NormalizeIdempotent(pin: string)
    requires NormalizeHashPin(pin).Ok?
    ensures NormalizeHashPin(NormalizeHashPin(pin).value) == NormalizeHashPin(pin)
  {
    var p := NormalizeHashPin(pin).value;
    var h := p[7..];
    assert p == HashPrefix + h;
    AcceptsPrefixed(h);
  }

  /**
   * Surrounding whitespace and upper-case hex letters are accepted: any input
   * whose lower-case form is a digest, padded with whitespace, normalises to
   * the prefixed lower-case digest.
   */
  lemma AcceptsPaddedAnyCase(pre: string, u: string, post: string)
    requires IsBlank(pre) && IsBlank(post)
    requires IsHexDigest(Lower(u))
    ensures NormalizeHashPin(pre + u + post) == Ok(HashPrefix + Lower(u))
  {
    var h := Lower(u);
    assert IsHexChar(h[0]) && IsHexChar(h[|h| - 1]);
    StripPadded(pre, u, post);
    HexPlain(h);
    assert DropPrefix(h) == h;
  }

  /** Only a stripped input of 64 or 71 characters can be accepted. */
  lemma WrongLengthRejected(pin: string)
    requires |Strip(pin)| != 64 && |Strip(pin)| != 71
    ensures NormalizeHashPin(pin) == Err(InvalidPinMessage)
  {
  }

  /** `compute_descriptor_hash`: the prefixed digest of the canonical form. */
  function DescriptorHash(digest: seq<(string, A.Json)> -> HexDigest, descriptor: seq<(string, A.Json)>): (h: string)
    ensures IsPin(h)
  {
    var d := digest(descriptor);
    assert (HashPrefix + d)[7..] == d;
    HashPrefix + d
  }

  // ---------------------------------------------------------------------------
  // Policy and allowlist parsing
  // ---------------------------------------------------------------------------

  /**
   * `DescriptorIntegrityPolicy`. Each pin set is held as its strictly sorted
   * list of members, the canonical listing of a set of strings.
   */
  datatype IntegrityPolicy = IntegrityPolicy(allowlist: map<string, seq<string>>, failClosed: bool, enforceAllowlist: bool)

  /** The pins given for one name: a single string, a list of JSON values, or anything else. */
  datatype RawPins = PinString(pin: string) | PinList(items: seq<A.Json>) | PinOther

  /** The `allowlist` field as supplied: absent/None, not an object, or an object. */
  datatype RawAllowlist = AllowNone | AllowNotObject | AllowObject(entries: seq<(string, RawPins)>)

  const NotObjectMessage := "allowlist must be an object of descriptor-name -> hash pins"
  const BlankNameMessage := "allowlist descriptor names must be non-empty strings"

  function BadPinsMessage(name: string): string {
    "allowlist entry for '" + name + "' must be a string or list of strings"
  }

  /** A pin set: normalised pins in strictly increasing order. */
  predicate PinSet(ps: seq<string>) {
    StrictlySorted(ps) && forall k | 0 <= k < |ps| :: IsPin(ps[k])
  }

  /** What a validated allowlist holds: stripped non-empty names mapped to pin sets. */
  predicate NormalizedAllowlist(m: map<string, seq<string>>) {
    StrippedNames(m.Keys) && AllPinSets(m)
  }

  /** A non-empty name with no whitespace at either end. */
  predicate Trimmed(name: string) {
    name != [] && !IsSpace(name[0]) && !IsSpace(name[|name| - 1])
  }

  predicate StrippedNames(names: set<string>) {
    forall name | name in names :: Trimmed(name)
  }

  predicate AllPinSets(m: map<string, seq<string>>) {
    forall name | name in m :: PinSet(m[name])
  }

  /** A pin normaliser: every pin it accepts is well formed, and it fails only with the format message. */
  ghost predicate Normaliser(normalize: string -> Result<string, string>) {
    forall x :: (normalize(x).Ok? ==> IsPin(normalize(x).value)) &&
                (normalize(x).Err? ==> normalize(x).error == InvalidPinMessage)
  }

  lemma PinNormaliser()
    ensures Normaliser(NormalizeHashPin)
  {
  }

  /** Every item is present and normalises. */
  predicate AllNormalise(items: seq<Option<string>>, normalize: string -> Result<string, string>) {
    forall i | 0 <= i < |items| :: items[i].Some? && normalize(items[i].value).Ok?
  }

  /** The set of the items' normalised pins. */
  function Normalised(items: seq<Option<string>>, normalize: string -> Result<string, string>): set<string>
    requires AllNormalise(items, normalize)
  {
    set i | 0 <= i < |items| :: normalize(items[i].value).value
  }

  /**
   * `{normalize(str(pin)) for pin in pin_values}`, with the set held as its
   * strictly sorted listing; the first item that does not normalise raises.
   */
  function CollectPins(items: seq<Option<string>>, normalize: string -> Result<string, string>)
    : (r: Result<seq<string>, string>)
    requires Normaliser(normalize)
    ensures r.Ok? ==> PinSet(r.value)
    ensures r.Ok? ==> |r.value| <= |items|
  {
    if items == [] then Ok([])
    else
      var n := |items| - 1;
      match CollectPins(items[..n], normalize)
      case Err(e) => Err(e)
      case Ok(acc) =>
        if items[n].None? then Err(InvalidPinMessage)
        else match normalize(items[n].value)
          case Err(e) => Err(e)
          case Ok(p) =>
            InsertPin(acc, p);
            Ok(InsertSorted(acc, p))
  }

  /** The pins are collected exactly when every item normalises; otherwise the error is the format message. */
  lemma {:induction false} CollectAccepts(items: seq<Option<string>>, normalize: string -> Result<string, string>)
    requires Normaliser(normalize)
    ensures CollectPins(items, normalize).Ok? <==> AllNormalise(items, normalize)
    ensures CollectPins(items, normalize).Err? ==> CollectPins(items, normalize).error == InvalidPinMessage
  {
    if items != [] {
      var n := |items| - 1;
      CollectAccepts(items[..n], normalize);
      assert forall i | 0 <= i < n :: items[..n][i] == items[i];
    }
  }

  /** The collected pins are exactly the items' normalised pins. */
  lemma {:induction false} CollectContents(items: seq<Option<string>>, normalize: string -> Result<string, string>)
    requires Normaliser(normalize) && CollectPins(items, normalize).Ok?
    ensures AllNormalise(items, normalize)
    ensures Elems(CollectPins(items, normalize).value) == Normalised(items, normalize)
  {
    CollectAccepts(items, normalize);
    if items != [] {
      var n := |items| - 1;
      var acc := CollectPins(items[..n], normalize).value;
      var p := normalize(items[n].value).value;
      CollectContents(items[..n], normalize);
      assert forall i | 0 <= i < n :: items[..n][i] == items[i];
      assert Normalised(items, normalize) == Normalised(items[..n], normalize) + {p};
      ElemsAppend(acc, [p]);
    }
  }

  /** `{normalize_hash_pin(str(pin)) for pin in pin_values}` over the items' texts. */
  function NormalizePins(items: seq<Option<string>>): (r: Result<seq<string>, string>)
    ensures r.Ok? <==> AllNormalise(items, NormalizeHashPin)
    ensures r.Err? ==> r.error == InvalidPinMessage
    ensures r.Ok? ==> PinSet(r.value) && Elems(r.value) == Normalised(items, NormalizeHashPin)
    ensures r.Ok? ==> |r.value| <= |items|
  {
    PinNormaliser();
    CollectAccepts(items, NormalizeHashPin);
    var r := CollectPins(items, NormalizeHashPin);
    if r.Ok? then CollectContents(items, NormalizeHashPin); r else r
  }

  /** A non-empty string of decimal digits. */
  predicate IsDigits(t: string) {
    t != [] && forall i | 0 <= i < |t| :: '0' <= t[i] <= '9'
  }

  /** `str(int(t))` for a digit string: leading zeros dropped, `"0"` for zero. */
  function IntegerText(t: string): (r: string)
    requires IsDigits(t)
    ensures IsDigits(r) && |r| <= |t|
    ensures |r| > 1 ==> r[0] != '0'
    ensures t[0] != '0' ==> r == t
  {
    if |t| > 1 && t[0] == '0' then IntegerText(t[1..]) else t
  }

  /**
   * What `str(pin)` gives a list item, as far as it can become a pin: a
   * string is itself and a non-negative integer its decimal digits. Every
   * other JSON value prints with a character no pin has (`-`, `.`, `+`, a
   * bracket, or a letter of `True`, `False`, `None`, `inf`, `nan`), so its
   * normalisation fails; it is `None` here.
   */
  function PinText(item: A.Json): (r: Option<string>)
    ensures item.JString? ==> r == Some(item.s)
    ensures r.Some? ==> item.JString? || IsDigits(r.value)
  {
    match item
    case JString(s) => Some(s)
    case JScalar(Number(t)) => if IsDigits(t) then Some(IntegerText(t)) else None
    case _ => None
  }

  function PinTexts(items: seq<A.Json>): seq<Option<string>> {
    seq(|items|, k requires 0 <= k < |items| => PinText(items[k]))
  }

  lemma InsertPin(acc: seq<string>, p: string)
    requires PinSet(acc) && IsPin(p)
    ensures PinSet(InsertSorted(acc, p)) && |InsertSorted(acc, p)| <= |acc| + 1
  {
    var r := InsertSorted(acc, p);
    ElemsAppend(acc, [p]);
    forall k | 0 <= k < |r| ensures IsPin(r[k]) {
      assert r[k] in Elems(r);
    }
    DistinctCard(r, acc + [p]);
  }

  /** The pin list of one allowlist entry. */
  /** The texts `str(pin)` of the entry's pin values; an entry of another kind has none. */
  function PinItems(pins: RawPins): seq<Option<string>> {
    match pins
    case PinString(p) => [Some(p)]
    case PinList(items) => PinTexts(items)
    case PinOther => []
  }

  /** The normalised pin set of one allowlist entry. */
  function EntryPins(name: string, pins: RawPins): (r: Result<seq<string>, string>)
    ensures r.Ok? ==> PinSet(r.value)
  {
    match pins
    case PinString(p) => NormalizePins([Some(p)])
    case PinList(items) => NormalizePins(PinTexts(items))
    case PinOther => Err(BadPinsMessage(name))
  }

  /**
   * An entry's pins are accepted exactly when it is a string or a list and
   * every value normalises, and then the set holds exactly the values'
   * normal forms; otherwise the error names the entry or the pin format.
   */
  lemma EntryPinsSpec(name: string, pins: RawPins)
    ensures var r := EntryPins(name, pins);
      && (r.Ok? <==> !pins.PinOther? && AllNormalise(PinItems(pins), NormalizeHashPin))
      && (r.Err? ==> r.error == if pins.PinOther? then BadPinsMessage(name) else InvalidPinMessage)
      && (r.Ok? ==> Elems(r.value) == Normalised(PinItems(pins), NormalizeHashPin))
  {
  }

  /** `validate_allowlist` over the first entries of the object, in order. */
  function AllowlistOf(entries: seq<(string, RawPins)>): (r: Result<map<string, seq<string>>, string>)
    ensures r.Ok? ==> NormalizedAllowlist(r.value)
  {
    if entries == [] then Ok(map[])
    else
      var n := |entries| - 1;
      match AllowlistOf(entries[..n])
      case Err(e) => Err(e)
      case Ok(m) =>
        AddEntry(m, Strip(entries[n].0), entries[n].0, entries[n].1)
  }

  /** One iteration of `validate_allowlist`: the entry's stripped name `key` now maps to its pins. */
  function AddEntry(m: map<string, seq<string>>, key: string, name: string, pins: RawPins)
    : (r: Result<map<string, seq<string>>, string>)
    requires NormalizedAllowlist(m) && (key != [] ==> Trimmed(key))
    ensures r.Err? <==> key == [] || EntryPins(name, pins).Err?
    ensures r.Ok? ==> NormalizedAllowlist(r.value)
    ensures r.Ok? ==> r.value.Keys == m.Keys + {key} && key in r.value && r.value[key] == EntryPins(name, pins).value
    ensures r.Ok? ==> forall k | k in m && k != key :: r.value[k] == m[k]
  {
    if key == [] then Err(BlankNameMessage)
    else
      var ps := EntryPins(name, pins);
      if ps.Err? then Err(ps.error) else Ok(PutPins(m, key, ps.value))
  }

  function PutPins(m: map<string, seq<string>>, key: string, ps: seq<string>): (r: map<string, seq<string>>)
    requires NormalizedAllowlist(m) && Trimmed(key) && PinSet(ps)
    ensures NormalizedAllowlist(r)
    ensures r.Keys == m.Keys + {key} && key in r && r[key] == ps
    ensures forall k | k in m && k != key :: r[k] == m[k]
  {
    m[key := ps]
  }

  function ParseAllowlist(raw: RawAllowlist): Result<map<string, seq<string>>, string> {
    match raw
    case AllowNone => Ok(map[])
    case AllowNotObject => Err(NotObjectMessage)
    case AllowObject(entries) => AllowlistOf(entries)
  }

  lemma AllowlistStep(entries: seq<(string, RawPins)>, i: nat)
    requires i < |entries|
    ensures Strip(entries[i].0) != [] ==> Trimmed(Strip(entries[i].0))
    ensures AllowlistOf(entries[..i + 1]) ==
      match AllowlistOf(entries[..i])
      case Err(e) => Err(e)
      case Ok(m) => AddEntry(m, Strip(entries[i].0), entries[i].0, entries[i].1)
  {
    assert entries[..i + 1][..i] == entries[..i];
  }

  lemma {:induction false} AllowlistErrorPersists(entries: seq<(string, RawPins)>, i: nat)
    requires i <= |entries|
    requires AllowlistOf(entries[..i]).Err?
    ensures AllowlistOf(entries) == AllowlistOf(entries[..i])
    decreases |entries| - i
  {
    if i == |entries| {
      assert entries[..i] == entries;
    } else {
      AllowlistStep(entries, i);
      AllowlistErrorPersists(entries, i + 1);
    }
  }

  /** The body of the loop in `validate_allowlist`: check the name, normalise the pins, store them. */
  method StoreEntry(normalized: map<string, seq<string>>, name: string, pins: RawPins)
    returns (r: Result<map<string, seq<string>>, string>)
    requires NormalizedAllowlist(normalized)
    ensures Strip(name) != [] ==> Trimmed(Strip(name))
    ensures r == AddEntry(normalized, Strip(name), name, pins)
  {
    var key := Strip(name);
    if key == [] {
      return Err(BlankNameMessage);
    }
    var pinValues := EntryPins(name, pins);
    if pinValues.Err? {
      return Err(pinValues.error);
    }
    r := Ok(PutPins(normalized, key, pinValues.value));
  }

  /** `DescriptorIntegrityPolicy.validate_allowlist`: build the normalised map entry by entry. */
  method ValidateAllowlist(raw: RawAllowlist) returns (r: Result<map<string, seq<string>>, string>)
    ensures r == ParseAllowlist(raw)
  {
    if raw.AllowNone? {
      return Ok(map[]);
    }
    if raw.AllowNotObject? {
      return Err(NotObjectMessage);
    }
    var entries := raw.entries;
    var normalized: map<string, seq<string>> := map[];
    for i := 0 to |entries|
      invariant AllowlistOf(entries[..i]) == Ok(normalized)
    {
      AllowlistStep(entries, i);
      var next := StoreEntry(normalized, entries[i].0, entries[i].1);
      if next.Err? {
        AllowlistErrorPersists(entries, i + 1);
        return Err(next.error);
      }
      normalized := next.value;
    }
    assert entries[..|entries|] == entries;
    r := Ok(normalized);
  }

  /** A single string pin is stored as the one-element set of its normal form. */
  lemma SingleStringPin(name: string, pin: string)
    requires Strip(name) != []
    requires NormalizeHashPin(pin).Ok?
    ensures AllowlistOf([(name, PinString(pin))]) == Ok(map[Strip(name) := [NormalizeHashPin(pin).value]])
  {
    SingleEntry(name, PinString(pin));
    SinglePinSet(pin);
  }

  /** A list holding one 64-digit JSON integer is accepted: `str()` of it is a bare digest. */
  lemma IntegerPinAccepted(name: string, digits: string)
    requires Strip(name) != []
    requires IsDigits(digits) && |digits| == 64 && digits[0] != '0'
    ensures AllowlistOf([(name, PinList([A.JScalar(A.Number(digits))]))]) == Ok(map[Strip(name) := [HashPrefix + digits]])
  {
    var items := [A.JScalar(A.Number(digits))];
    assert IsHexDigest(digits) by {
      forall i | 0 <= i < 64 ensures IsHexChar(digits[i]) {
        assert '0' <= digits[i] <= '9';
      }
    }
    assert PinTexts(items) == [Some(digits)];
    AcceptsBare(digits);
    SinglePinSet(digits);
    SingleEntry(name, PinList(items));
  }

  /** Any other item that is not a string (a boolean, null, a float, a negative number, a container) is rejected. */
  lemma NonStringPinRejected(name: string, item: A.Json)
    requires PinText(item).None?
    ensures AllowlistOf([(name, PinList([item]))]) == Err(if Strip(name) == [] then BlankNameMessage else InvalidPinMessage)
  {
    var items := [item];
    assert PinTexts(items) == [None];
    var texts := PinTexts(items);
    assert texts[..0] == [] && NormalizePins(texts[..0]) == Ok([]);
    assert NormalizePins(texts) == Err(InvalidPinMessage);
    SingleEntry(name, PinList(items));
  }

  lemma SingleEntry(name: string, pins: RawPins)
    ensures Strip(name) != [] ==> Trimmed(Strip(name))
    ensures AllowlistOf([(name, pins)]) == AddEntry(map[], Strip(name), name, pins)
  {
    var entries := [(name, pins)];
    AllowlistStep(entries, 0);
    assert entries[..0] == [] && entries[..1] == entries;
  }

  lemma SinglePinSet(pin: string)
    requires NormalizeHashPin(pin).Ok?
    ensures NormalizePins([Some(pin)]) == Ok([NormalizeHashPin(pin).value])
  {
    var items := [Some(pin)];
    assert items[..0] == [];
    assert NormalizePins(items[..0]) == Ok([]);
  }

  lemma LastEntryStored(entries: seq<(string, RawPins)>)
    requires entries != [] && AllowlistOf(entries).Ok?
    ensures AllowlistOf(entries[..|entries| - 1]).Ok?
    ensures AllowlistOf(entries).value.Keys ==
      AllowlistOf(entries[..|entries| - 1]).value.Keys + {Strip(entries[|entries| - 1].0)}
  {
  }

  lemma NamesCovered(entries: seq<(string, RawPins)>, pk: set<string>, fk: set<string>)
    requires entries != []
    requires forall i | 0 <= i < |entries| - 1 :: Strip(entries[i].0) in pk
    requires pk <= fk && Strip(entries[|entries| - 1].0) in fk
    ensures forall i | 0 <= i < |entries| :: Strip(entries[i].0) in fk
  {
  }

  /** An entry `validate_allowlist` accepts: a non-blank name and pins that normalise. */
  predicate GoodEntry(entry: (string, RawPins)) {
    Strip(entry.0) != [] && EntryPins(entry.0, entry.1).Ok?
  }

  /** An object is accepted exactly when every entry is. */
  lemma {:induction false} AllowlistAccepts(entries: seq<(string, RawPins)>)
    ensures AllowlistOf(entries).Ok? <==> forall i | 0 <= i < |entries| :: GoodEntry(entries[i])
  {
    if entries != [] {
      var n := |entries| - 1;
      AllowlistAccepts(entries[..n]);
      AllLast(entries, entries[..n], GoodEntry);
      if AllowlistOf(entries[..n]).Ok? {
        LastEntryAccepted(entries);
      } else {
        AllowlistErrorPersists(entries, n);
      }
    }
  }

  /** Every element satisfies `p` exactly when every element but the last does and the last does. */
  lemma AllLast<T>(s: seq<T>, init: seq<T>, p: T -> bool)
    requires s != [] && init == s[..|s| - 1]
    ensures (forall i | 0 <= i < |s| :: p(s[i])) <==> (forall i | 0 <= i < |init| :: p(init[i])) && p(s[|s| - 1])
  {
    assert forall i | 0 <= i < |init| :: init[i] == s[i];
  }

  lemma {:induction false} LastEntryAccepted(entries: seq<(string, RawPins)>)
    requires entries != [] && AllowlistOf(entries[..|entries| - 1]).Ok?
    ensures AllowlistOf(entries).Ok? <==> GoodEntry(entries[|entries| - 1])
  {
    var n := |entries| - 1;
    AllowlistStep(entries, n);
    assert entries[..n + 1] == entries;
  }

  /** `m` maps `key` to the pin set `r` holds. */
  predicate StoredAs(m: map<string, seq<string>>, key: string, r: Result<seq<string>, string>) {
    key in m && r == Ok(m[key])
  }

  /** The last entry's pins are stored under its stripped name. */
  lemma {:induction false} LastPinsStored(entries: seq<(string, RawPins)>)
    requires entries != [] && AllowlistOf(entries).Ok?
    ensures StoredAs(AllowlistOf(entries).value, Strip(entries[|entries| - 1].0),
                     EntryPins(entries[|entries| - 1].0, entries[|entries| - 1].1))
  {
    var n := |entries| - 1;
    AllowlistStep(entries, n);
    assert entries[..n + 1] == entries;
    var m := AllowlistOf(entries[..n]).value;
    assert AllowlistOf(entries) == AddEntry(m, Strip(entries[n].0), entries[n].0, entries[n].1);
  }

  /** The last entry leaves every other name's pins as the earlier entries stored them. */
  lemma {:induction false} OtherPinsKept(entries: seq<(string, RawPins)>, k: string)
    requires entries != [] && AllowlistOf(entries).Ok?
    requires AllowlistOf(entries[..|entries| - 1]).Ok? && k in AllowlistOf(entries[..|entries| - 1]).value
    requires k != Strip(entries[|entries| - 1].0)
    ensures k in AllowlistOf(entries).value
    ensures AllowlistOf(entries).value[k] == AllowlistOf(entries[..|entries| - 1]).value[k]
  {
    var n := |entries| - 1;
    AllowlistStep(entries, n);
    assert entries[..n + 1] == entries;
  }

  /** A name's stored pin set is that of the last entry whose name strips to it. */
  lemma {:induction false} AllowlistStoresLastPins(entries: seq<(string, RawPins)>, i: nat)
    requires AllowlistOf(entries).Ok? && i < |entries|
    requires forall j | i < j < |entries| :: Strip(entries[j].0) != Strip(entries[i].0)
    ensures StoredAs(AllowlistOf(entries).value, Strip(entries[i].0), EntryPins(entries[i].0, entries[i].1))
  {
    var n := |entries| - 1;
    if i == n {
      LastPinsStored(entries);
    } else {
      var prefix := entries[..n];
      LastEntryStored(entries);
      assert forall j | 0 <= j < n :: prefix[j] == entries[j];
      AllowlistStoresLastPins(prefix, i);
      OtherPinsKept(entries, Strip(entries[i].0));
    }
  }

  /** A successfully parsed object has an entry for the stripped form of every supplied name. */
  lemma {:induction false} EveryNameStored(entries: seq<(string, RawPins)>)
    requires AllowlistOf(entries).Ok?
    ensures forall i | 0 <= i < |entries| :: Strip(entries[i].0) in AllowlistOf(entries).value
  {
    if entries != [] {
      var n := |entries| - 1;
      var prefix := entries[..n];
      LastEntryStored(entries);
      EveryNameStored(prefix);
      var pk := AllowlistOf(prefix).value.Keys;
      var fk := AllowlistOf(entries).value.Keys;
      forall i | 0 <= i < n ensures Strip(entries[i].0) in pk {
        assert prefix[i] == entries[i];
      }
      NamesCovered(entries, pk, fk);
    }
  }

  /** `DescriptorIntegrityPolicy` from its fields; absent flags default to true. */
  function PolicyFromFields(allowlist: RawAllowlist, failClosed: Option<bool>, enforceAllowlist: Option<bool>)
    : (r: Result<IntegrityPolicy, string>)
    ensures r.Ok? ==> r.value.failClosed == (failClosed.None? || failClosed.value)
    ensures r.Ok? ==> r.value.enforceAllowlist == (enforceAllowlist.None? || enforceAllowlist.value)
    ensures r.Ok? <==> ParseAllowlist(allowlist).Ok?
  {
    match ParseAllowlist(allowlist)
    case Err(e) => Err("Invalid descriptor integrity policy: " + e)
    case Ok(m) =>
      Ok(IntegrityPolicy(m, if failClosed.Some? then failClosed.value else true,
                         if enforceAllowlist.Some? then enforceAllowlist.value else true))
  }

  // ---------------------------------------------------------------------------
  // The decision tree
  // ---------------------------------------------------------------------------

  datatype Reason =
    | PinMismatch(expected: string, got: string)
    | MissingName
    | NoPins(name: string)
    | AllowlistMismatch(name: string, pins: seq<string>, got: string)
    | AllowlistMatched(name: string)
    | ExplicitPinMatched
    | NoPinValidated
    | ChecksSkipped

  /** The message of each reason; every text is its fixed opening followed by the rest. */
  function ReasonText(r: Reason): string {
    match r
    case PinMismatch(e, g) => "Hash pin mismatch: expected " + e + ", got " + g
    case MissingName => "Descriptor is missing required" + " 'name'; cannot enforce allowlist"
    case NoPins(n) => "No allowlist hash pins configured" + " for descriptor '" + n + "'"
    case AllowlistMismatch(n, ps, g) =>
      "Descriptor hash mismatch for '" + n + "': expected one of [" + Join(", ", ps) + "], got " + g
    case AllowlistMatched(n) => "Descriptor hash matched allowlist" + " pin for '" + n + "'"
    case ExplicitPinMatched => "Descriptor hash matched explicit pin"
    case NoPinValidated =>
      "No integrity pin could be validated" + " (allowlist enforcement disabled and no expected hash provided)"
    case ChecksSkipped => "Descriptor integrity checks skipped" + " by policy configuration"
  }

  datatype IntegrityResult = IntegrityResult(
    allowed: bool, name: Option<string>, hash: string, matchedPin: Option<string>, reason: Reason)

  /** The descriptor's `name` when it is a string that is not blank, stripped. */
  function DescriptorName(descriptor: seq<(string, A.Json)>): (n: Option<string>)
    ensures n.Some? ==> n.value != [] && Strip(n.value) == n.value
    ensures n.Some? <==> NameField(descriptor).Some? && !IsBlank(NameField(descriptor).value)
    ensures n.Some? ==> n.value == Strip(NameField(descriptor).value)
  {
    match A.Get(descriptor, "name")
    case Some(JString(s)) =>
      StripIdempotent(s);
      StripSlice(s);
      if Strip(s) != [] then Some(Strip(s)) else None
    case _ => None
  }

  /** The descriptor's `name` when it is a string. */
  function NameField(descriptor: seq<(string, A.Json)>): Option<string> {
    match A.Get(descriptor, "name")
    case Some(JString(s)) => Some(s)
    case _ => None
  }

  /** `DescriptorIntegrityChecker.evaluate`; the only error is a malformed explicit pin. */
  function Evaluate(policy: IntegrityPolicy, descriptor: seq<(string, A.Json)>, expectedHash: Option<string>,
                    digest: seq<(string, A.Json)> -> HexDigest): (r: Result<IntegrityResult, string>)
    ensures r.Err? <==> expectedHash.Some? && NormalizeHashPin(expectedHash.value).Err?
    ensures r.Ok? ==> r.value.hash == DescriptorHash(digest, descriptor) && r.value.name == DescriptorName(descriptor)
    ensures r.Ok? && !r.value.allowed ==> r.value.matchedPin.None?
  {
    var name := DescriptorName(descriptor);
    var hash := DescriptorHash(digest, descriptor);
    if expectedHash.Some? && NormalizeHashPin(expectedHash.value).Err? then
      Err(NormalizeHashPin(expectedHash.value).error)
    else
      var expected := if expectedHash.Some? then Some(NormalizeHashPin(expectedHash.value).value) else None;
      if expected.Some? && hash != expected.value then
        Ok(IntegrityResult(false, name, hash, None, PinMismatch(expected.value, hash)))
      else if policy.enforceAllowlist then
        if name.None? then
          Ok(IntegrityResult(false, None, hash, None, MissingName))
        else
          var pins := if name.value in policy.allowlist then policy.allowlist[name.value] else [];
          if pins == [] then
            Ok(IntegrityResult(false, name, hash, None, NoPins(name.value)))
          else if hash !in pins then
            Ok(IntegrityResult(false, name, hash, None, AllowlistMismatch(name.value, pins, hash)))
          else
            Ok(IntegrityResult(true, name, hash, Some(hash), AllowlistMatched(name.value)))
      else if expected.Some? then
        Ok(IntegrityResult(true, name, hash, expected, ExplicitPinMatched))
      else if policy.failClosed then
        Ok(IntegrityResult(false, name, hash, None, NoPinValidated))
      else
        Ok(IntegrityResult(true, name, hash, None, ChecksSkipped))
  }

  /** The pins the allowlist holds for a name (none when the name is absent). */
  function PinsFor(policy: IntegrityPolicy, name: string): seq<string> {
    if name in policy.allowlist then policy.allowlist[name] else []
  }

  /**
   * What an allowed descriptor has passed: an explicit pin, when given, equals
   * its hash; under enforcement it has a name whose pins include its hash, and
   * the matched pin is that hash; with neither check it is allowed only when
   * the policy fails open.
   */
  lemma AllowedMeansVerified(policy: IntegrityPolicy, descriptor: seq<(string, A.Json)>, expectedHash: Option<string>,
                             digest: seq<(string, A.Json)> -> HexDigest)
    requires Evaluate(policy, descriptor, expectedHash, digest).Ok?
    requires Evaluate(policy, descriptor, expectedHash, digest).value.allowed
    ensures var r := Evaluate(policy, descriptor, expectedHash, digest).value;
      (expectedHash.Some? ==> r.hash == NormalizeHashPin(expectedHash.value).value) &&
      (policy.enforceAllowlist ==>
         r.name.Some? && r.hash in PinsFor(policy, r.name.value) && r.matchedPin == Some(r.hash)) &&
      (!policy.enforceAllowlist && expectedHash.Some? ==> r.matchedPin == Some(r.hash)) &&
      (!policy.enforceAllowlist && expectedHash.None? ==> !policy.failClosed && r.matchedPin.None?)
  {
  }

  /** An explicit pin that differs from the hash denies before the allowlist is consulted. */
  lemma ExplicitMismatchDeniesFirst(policy: IntegrityPolicy, descriptor: seq<(string, A.Json)>, pin: string,
                                    digest: seq<(string, A.Json)> -> HexDigest)
    requires NormalizeHashPin(pin).Ok? && NormalizeHashPin(pin).value != DescriptorHash(digest, descriptor)
    ensures var r := Evaluate(policy, descriptor, Some(pin), digest);
      r.Ok? && !r.value.allowed && r.value.reason == PinMismatch(NormalizeHashPin(pin).value, DescriptorHash(digest, descriptor))
  {
  }

  /**
   * Under enforcement, each way of failing has its own reason, and a named
   * descriptor whose hash is pinned (and matches any explicit pin) is allowed.
   */
  lemma EnforcementBranches(policy: IntegrityPolicy, descriptor: seq<(string, A.Json)>, expectedHash: Option<string>,
                            digest: seq<(string, A.Json)> -> HexDigest)
    requires policy.enforceAllowlist
    requires expectedHash.Some? ==> NormalizeHashPin(expectedHash.value) == Ok(DescriptorHash(digest, descriptor))
    ensures var r := Evaluate(policy, descriptor, expectedHash, digest).value;
      var name := DescriptorName(descriptor);
      var hash := DescriptorHash(digest, descriptor);
      (name.None? ==> !r.allowed && r.reason == MissingName) &&
      (name.Some? && PinsFor(policy, name.value) == [] ==> !r.allowed && r.reason == NoPins(name.value)) &&
      (name.Some? && PinsFor(policy, name.value) != [] && hash !in PinsFor(policy, name.value) ==>
         !r.allowed && r.reason.AllowlistMismatch?) &&
      (name.Some? && hash in PinsFor(policy, name.value) ==>
         r.allowed && r.matchedPin == Some(hash) && r.reason == AllowlistMatched(name.value))
  {
  }

  /** With enforcement off and no explicit pin, the outcome is allowed exactly when the policy fails open. */
  lemma FallbackFollowsFailClosed(policy: IntegrityPolicy, descriptor: seq<(string, A.Json)>,
                                  digest: seq<(string, A.Json)> -> HexDigest)
    requires !policy.enforceAllowlist
    ensures var r := Evaluate(policy, descriptor, None, digest);
      r.Ok? && r.value.allowed == !policy.failClosed && r.value.matchedPin.None?
  {
  }

  /**
   * With enforcement off, an explicit pin equal to the hash allows the
   * descriptor, whatever fail-closed says, and records the pin as matched.
   */
  lemma ExplicitPinAllows(policy: IntegrityPolicy, descriptor: seq<(string, A.Json)>, pin: string,
                          digest: seq<(string, A.Json)> -> HexDigest)
    requires !policy.enforceAllowlist
    requires NormalizeHashPin(pin) == Ok(DescriptorHash(digest, descriptor))
    ensures var r := Evaluate(policy, descriptor, Some(pin), digest);
      r.Ok? && r.value.allowed && r.value.matchedPin == Some(NormalizeHashPin(pin).value) &&
      r.value.reason == ExplicitPinMatched
  {
  }

  /** The position of a reason's constructor in the declaration. */
  function ReasonKind(r: Reason): nat {
    match r
    case PinMismatch(_, _) => 0
    case MissingName => 1
    case NoPins(_) => 2
    case AllowlistMismatch(_, _, _) => 3
    case AllowlistMatched(_) => 4
    case ExplicitPinMatched => 5
    case NoPinValidated => 6
    case ChecksSkipped => 7
  }

  /** The character at position 25, inside the fixed opening of every text. */
  function Mark(r: Reason): char {
    match r
    case PinMismatch(_, _) => 'e'
    case MissingName => 'u'
    case NoPins(_) => 'n'
    case AllowlistMismatch(_, _, _) => 'f'
    case AllowlistMatched(_) => 'l'
    case ExplicitPinMatched => 'x'
    case NoPinValidated => ' '
    case ChecksSkipped => 'k'
  }

  lemma TextMark(r: Reason)
    ensures |ReasonText(r)| > 25 && ReasonText(r)[25] == Mark(r)
  {
    if r.PinMismatch? || r.NoPins? || r.AllowlistMismatch? || r.AllowlistMatched? {
      FieldTextMark(r);
    } else {
      FixedTextMark(r);
    }
  }

  /** The reasons whose text carries a name, pins or hashes. */
  lemma FieldTextMark(r: Reason)
    requires r.PinMismatch? || r.NoPins? || r.AllowlistMismatch? || r.AllowlistMatched?
    ensures |ReasonText(r)| > 25 && ReasonText(r)[25] == Mark(r)
  {
    match r
    case PinMismatch(e, g) => OpeningMark("Hash pin mismatch: expected ", e + ", got " + g);
    case NoPins(n) => OpeningMark("No allowlist hash pins configured", " for descriptor '" + n + "'");
    case AllowlistMismatch(n, ps, g) =>
      OpeningMark("Descriptor hash mismatch for '", n + "': expected one of [" + Join(", ", ps) + "], got " + g);
    case AllowlistMatched(n) => OpeningMark("Descriptor hash matched allowlist", " pin for '" + n + "'");
  }

  /** The reasons whose text is fixed. */
  lemma FixedTextMark(r: Reason)
    requires r.MissingName? || r.ExplicitPinMatched? || r.NoPinValidated? || r.ChecksSkipped?
    ensures |ReasonText(r)| > 25 && ReasonText(r)[25] == Mark(r)
  {
    match r
    case MissingName => OpeningMark("Descriptor is missing required", " 'name'; cannot enforce allowlist");
    case ExplicitPinMatched => OpeningMark("Descriptor hash matched explicit pin", "");
    case NoPinValidated =>
      OpeningMark("No integrity pin could be validated",
                  " (allowlist enforcement disabled and no expected hash provided)");
    case ChecksSkipped => OpeningMark("Descriptor integrity checks skipped", " by policy configuration");
  }

  lemma OpeningMark(opening: string, rest: string)
    requires |opening| > 25
    ensures |opening + rest| > 25 && (opening + rest)[25] == opening[25]
  {
  }

  /**
   * Reasons of different kinds never share a text, whatever names, pins and
   * hashes they carry, so the message alone tells which branch decided.
   */
  lemma ReasonTextsDistinct(r1: Reason, r2: Reason)
    requires ReasonKind(r1) != ReasonKind(r2)
    ensures ReasonText(r1) != ReasonText(r2)
  {
    TextMark(r1);
    TextMark(r2);
  }
}
