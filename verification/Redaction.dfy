/** Recursive redaction of sensitive keys in telemetry values, strings of JSON included. */
module Redaction {
  import opened Common

  datatype Key = Text(text: string) | Raw(bytes: seq<bv8>) | Other(code: int)

  /** A container of the builtin type, or of a type of its own that can or cannot be rebuilt from one. */
  datatype Kind = Builtin | Custom(rebuilds: bool)

  datatype Field = Field(key: Key, value: Value)

  /**
   `Scalar` covers None and the types passed through unchanged, `Unsupported` everything unknown; `ModelLike` is
   an object that dumps itself to fields, `Undumpable` one whose dump raises.
   */
  datatype Value =
    | Str(text: string)
    | Bytes(bytes: seq<bv8>)
    | Scalar(code: int)
    | Unsupported(code: int)
    | Mapping(kind: Kind, fields: seq<Field>)
    | ModelLike(fields: seq<Field>)
    | Undumpable
    | SetOf(items: seq<Value>)
    | Sequence(kind: Kind, items: seq<Value>)

  datatype Json = NotJson | Crash | Parsed(value: Value)

  /** The library calls: case folding, decoding, `str` on a key, hashing, and JSON reading and printing. */
  datatype Platform = Platform(
    fold: string -> string,
    utf8: seq<bv8> -> Option<string>,
    keyText: int -> Option<string>,
    hashable: Value -> bool,
    jsonScalar: int -> bool,
    strip: string -> string,
    loads: string -> Json,
    dumps: Value -> Option<string>)

  const MAX_DEPTH: nat := 10
  const MAX_JSON_SCAN_LEN := 8192
  const REDACTED := Str("[REDACTED]")

  // ---------- keys ----------

  predicate IsUnclassifiable(p: Platform, key: Key) {
    key.Raw? && p.utf8(key.bytes).None?
  }

  /** `None` when the key has no text; for bytes this is the strict decoding, the only one ever used. */
  function NormalizeKey(p: Platform, key: Key): Option<string> {
    var text :=
      match key
      case Text(text) => Some(text)
      case Raw(bytes) => p.utf8(bytes)
      case Other(code) => p.keyText(code);
    if text.Some? then Some(p.fold(text.value)) else None
  }

  /** The value under this key is replaced by the redaction mark. */
  predicate IsHidden(p: Platform, sensitive: set<string>, key: Key) {
    IsUnclassifiable(p, key) || (NormalizeKey(p, key).Some? && NormalizeKey(p, key).value in sensitive)
  }

  /** Looking at this key raises an exception, which costs the whole mapping. */
  predicate IsFatal(p: Platform, key: Key) {
    !IsUnclassifiable(p, key) && NormalizeKey(p, key).None?
  }

  // ---------- secrets, by name ----------

  /** The text of a key: that of a string, of bytes that decode, and of any other object `str` works on. */
  function KeyTextOf(p: Platform, key: Key): Option<string> {
    match key
    case Text(text) => Some(text)
    case Raw(bytes) => p.utf8(bytes)
    case Other(code) => p.keyText(code)
  }

  /** The key spells one of the names, up to case and surrounding space, or is bytes that spell nothing. */
  predicate IsSecret(p: Platform, names: seq<string>, key: Key) {
    || (key.Raw? && p.utf8(key.bytes).None?)
    || (KeyTextOf(p, key).Some? && exists name | name in names :: p.fold(name) == p.fold(KeyTextOf(p, key).value))
  }

  /** The key has a text to be compared. */
  predicate IsReadable(p: Platform, key: Key) {
    KeyTextOf(p, key).Some?
  }

  function Folded(p: Platform, names: seq<string>): set<string> {
    set name | name in names :: p.fold(name)
  }

  /** The code's test finds exactly the secrets, and exactly the keys without a text are fatal or secret. */
  lemma HiddenIsSecret(p: Platform, names: seq<string>, key: Key)
    ensures IsHidden(p, Folded(p, names), key) <==> IsSecret(p, names, key)
    ensures IsFatal(p, key) <==> !IsReadable(p, key) && !key.Raw?
  {
  }

  // ---------- strings of JSON ----------

  predicate LooksLikeJson(p: Platform, text: string) {
    var stripped := p.strip(text);
    stripped != "" && (stripped[0] == '{' || stripped[0] == '[' || stripped[0] == '"')
  }

  /** The text begins as a JSON object, array or string does. */
  predicate BeginsLikeJson(p: Platform, text: string) {
    p.strip(text) != "" && p.strip(text)[0] in {'{', '[', '"'}
  }

  /** What a string is redacted as: itself, the mark, or the value it spells. */
  datatype Reading = AsIs | Withheld | Spells(value: Value)

  function Read(p: Platform, text: string): Reading {
    if !LooksLikeJson(p, text) then AsIs
    else if |p.strip(text)| > MAX_JSON_SCAN_LEN then Withheld
    else
      match p.loads(p.strip(text))
      case NotJson => AsIs
      case Crash => Withheld
      case Parsed(value) => Spells(value)
  }

  // ---------- redaction ----------

  function Rebuilt(kind: Kind): Kind {
    if kind == Custom(false) then Builtin else kind
  }

  function Distinct(items: seq<Value>): seq<Value> {
    if items == [] then []
    else
      var rest := Distinct(items[..|items| - 1]);
      if items[|items| - 1] in rest then rest else rest + [items[|items| - 1]]
  }

  function SanitizeHeaders(p: Platform, headers: Value, sensitiveHeaders: seq<string>): Value {
    Sanitize(p, set h | h in sensitiveHeaders :: p.fold(h), headers, 0)
  }

  /** Never raises: an exception on the way down redacts the value it happens in. */
  function Sanitize(p: Platform, sensitive: set<string>, v: Value, depth: nat): Value
    decreases MAX_DEPTH + 1 - depth, 2
  {
    if depth > MAX_DEPTH then REDACTED
    else
      match v
      case Str(text) => SanitizeText(p, sensitive, text, depth)
      case Bytes(_) => v
      case Mapping(kind, fields) =>
        if exists f | f in fields :: IsFatal(p, f.key) then REDACTED
        else Mapping(Rebuilt(kind), SanitizeFields(p, sensitive, fields, depth))
      case Undumpable => REDACTED
      case ModelLike(fields) =>
        if exists f | f in fields :: IsFatal(p, f.key) then REDACTED
        else Mapping(Builtin, SanitizeFields(p, sensitive, fields, depth))
      case SetOf(items) =>
        var sanitized := SanitizeItems(p, sensitive, items, depth);
        if forall x | x in sanitized :: p.hashable(x) then SetOf(Distinct(sanitized)) else REDACTED
      case Sequence(kind, items) => Sequence(Rebuilt(kind), SanitizeItems(p, sensitive, items, depth))
      case Scalar(_) => v
      case Unsupported(_) => REDACTED
  }

  function SanitizeText(p: Platform, sensitive: set<string>, text: string, depth: nat): Value
    requires depth <= MAX_DEPTH
    decreases MAX_DEPTH + 1 - depth, 1
  {
    match Read(p, text)
    case AsIs => Str(text)
    case Withheld => REDACTED
    case Spells(value) =>
      match p.dumps(Sanitize(p, sensitive, value, depth + 1))
      case Some(printed) => Str(printed)
      case None => Str(text)
  }

  function SanitizeFields(p: Platform, sensitive: set<string>, fields: seq<Field>, depth: nat): (r: seq<Field>)
    requires depth <= MAX_DEPTH
    ensures |r| == |fields|
    ensures forall i | 0 <= i < |r| ::
      r[i] == Field(fields[i].key, if IsHidden(p, sensitive, fields[i].key) then REDACTED
                                   else Sanitize(p, sensitive, fields[i].value, depth + 1))
    decreases MAX_DEPTH + 1 - depth, 1, |fields|
  {
    if fields == [] then []
    else
      var f := fields[0];
      [Field(f.key, if IsHidden(p, sensitive, f.key) then REDACTED else Sanitize(p, sensitive, f.value, depth + 1))]
      + SanitizeFields(p, sensitive, fields[1..], depth)
  }

  function SanitizeItems(p: Platform, sensitive: set<string>, items: seq<Value>, depth: nat): (r: seq<Value>)
    requires depth <= MAX_DEPTH
    ensures |r| == |items|
    ensures forall i | 0 <= i < |r| :: r[i] == Sanitize(p, sensitive, items[i], depth + 1)
    decreases MAX_DEPTH + 1 - depth, 1, |items|
  {
    if items == [] then []
    else [Sanitize(p, sensitive, items[0], depth + 1)] + SanitizeItems(p, sensitive, items[1..], depth)
  }

  // ---------- nesting ----------

  lemma {:induction false} DistinctMembers(items: seq<Value>)
    ensures forall x :: x in Distinct(items) <==> x in items
  {
    if items != [] {
      var n := |items| - 1;
      DistinctMembers(items[..n]);
      assert items == items[..n] + [items[n]];
    }
  }

  /** At most `n` containers are nested in each other. */
  predicate NestsWithin(v: Value, n: nat)
    decreases n
  {
    match v
    case Mapping(_, fields) => n > 0 && forall f | f in fields :: NestsWithin(f.value, n - 1)
    case ModelLike(fields) => n > 0 && forall f | f in fields :: NestsWithin(f.value, n - 1)
    case SetOf(items) => n > 0 && forall x | x in items :: NestsWithin(x, n - 1)
    case Sequence(_, items) => n > 0 && forall x | x in items :: NestsWithin(x, n - 1)
    case _ => true
  }

  lemma {:induction false} NestsFurther(v: Value, m: nat, n: nat)
    requires m <= n && NestsWithin(v, m)
    ensures NestsWithin(v, n)
    decreases m
  {
    match v
    case Mapping(_, fields) =>
      forall f | f in fields ensures NestsWithin(f.value, n - 1) {
        NestsFurther(f.value, m - 1, n - 1);
      }
    case ModelLike(fields) =>
      forall f | f in fields ensures NestsWithin(f.value, n - 1) {
        NestsFurther(f.value, m - 1, n - 1);
      }
    case SetOf(items) =>
      forall x | x in items ensures NestsWithin(x, n - 1) {
        NestsFurther(x, m - 1, n - 1);
      }
    case Sequence(_, items) =>
      forall x | x in items ensures NestsWithin(x, n - 1) {
        NestsFurther(x, m - 1, n - 1);
      }
    case _ =>
  }

  lemma {:induction false} FieldsNest(p: Platform, sensitive: set<string>, fields: seq<Field>, depth: nat)
    requires depth <= MAX_DEPTH
    ensures forall f | f in SanitizeFields(p, sensitive, fields, depth) :: NestsWithin(f.value, MAX_DEPTH - depth)
    decreases MAX_DEPTH + 1 - depth, 0
  {
    hide Sanitize;
    var r := SanitizeFields(p, sensitive, fields, depth);
    forall i | 0 <= i < |r| ensures NestsWithin(r[i].value, MAX_DEPTH - depth) {
      NestingIsBounded(p, sensitive, fields[i].value, depth + 1);
    }
  }

  lemma {:induction false} ItemsNest(p: Platform, sensitive: set<string>, items: seq<Value>, depth: nat)
    requires depth <= MAX_DEPTH
    ensures forall x | x in SanitizeItems(p, sensitive, items, depth) :: NestsWithin(x, MAX_DEPTH - depth)
    decreases MAX_DEPTH + 1 - depth, 0
  {
    hide Sanitize;
    forall i | 0 <= i < |items| ensures NestsWithin(SanitizeItems(p, sensitive, items, depth)[i], MAX_DEPTH - depth) {
      NestingIsBounded(p, sensitive, items[i], depth + 1);
    }
  }

  /** Whatever goes in at depth `d`, what comes out nests at most 11 - d containers, so at most 11 from the top. */
  lemma {:induction false} NestingIsBounded(p: Platform, sensitive: set<string>, v: Value, depth: nat)
    requires depth <= MAX_DEPTH + 1
    ensures NestsWithin(Sanitize(p, sensitive, v, depth), MAX_DEPTH + 1 - depth)
    decreases MAX_DEPTH + 1 - depth, 1
  {
    if depth <= MAX_DEPTH {
      match v
      case Mapping(_, fields) => FieldsNest(p, sensitive, fields, depth);
      case ModelLike(fields) => FieldsNest(p, sensitive, fields, depth);
      case SetOf(items) =>
        ItemsNest(p, sensitive, items, depth);
        DistinctMembers(SanitizeItems(p, sensitive, items, depth));
      case Sequence(_, items) => ItemsNest(p, sensitive, items, depth);
      case _ =>
    }
  }

  // ---------- what is assumed of the JSON library ----------

  /** Values that reading JSON can produce. */
  predicate IsJson(p: Platform, v: Value) {
    match v
    case Str(_) => true
    case Scalar(code) => p.jsonScalar(code)
    case Mapping(kind, fields) =>
      && kind == Builtin
      && (forall i, j | 0 <= i < j < |fields| :: fields[i].key != fields[j].key)
      && (forall f | f in fields :: f.key.Text? && IsJson(p, f.value))
    case Sequence(kind, items) => kind == Builtin && forall x | x in items :: IsJson(p, x)
    case _ => false
  }

  /**
   Reading yields JSON values; printing one that nests no deeper than redaction allows succeeds and reads back as
   it was; and the mark is short and not JSON.
   */
  ghost predicate Lawful(p: Platform) {
    && (forall text: string :: p.loads(text).Parsed? ==> IsJson(p, p.loads(text).value))
    && (forall v: Value :: IsJson(p, v) && NestsWithin(v, MAX_DEPTH + 1) ==>
      p.dumps(v).Some? && p.loads(p.strip(p.dumps(v).value)) == Parsed(v))
    && p.loads(p.strip(REDACTED.text)) == NotJson
    && |p.strip(REDACTED.text)| <= MAX_JSON_SCAN_LEN
  }

  /** Redaction keeps JSON values JSON values, so printing them again cannot fail. */
  lemma {:induction false} SanitizeKeepsJson(p: Platform, sensitive: set<string>, v: Value, depth: nat)
    requires IsJson(p, v)
    ensures IsJson(p, Sanitize(p, sensitive, v, depth))
    decreases MAX_DEPTH + 1 - depth
  {
    if depth <= MAX_DEPTH {
      match v
      case Str(text) => assert SanitizeText(p, sensitive, text, depth).Str?;
      case Mapping(_, fields) =>
        assert forall f | f in fields :: !IsFatal(p, f.key);
        forall f | f in fields ensures IsJson(p, Sanitize(p, sensitive, f.value, depth + 1)) {
          SanitizeKeepsJson(p, sensitive, f.value, depth + 1);
        }
      case Sequence(_, items) =>
        forall i | 0 <= i < |items| ensures IsJson(p, Sanitize(p, sensitive, items[i], depth + 1)) {
          SanitizeKeepsJson(p, sensitive, items[i], depth + 1);
        }
      case _ =>
    }
  }

  // ---------- non-interference ----------

  /** The two values differ only where redaction must not let anything through. */
  ghost predicate Related(p: Platform, names: seq<string>, a: Value, b: Value, depth: nat)
    decreases MAX_DEPTH + 1 - depth
  {
    depth > MAX_DEPTH ||
    match (a, b)
    case (Str(s), Str(t)) =>
      || s == t
      || (Read(p, s).Withheld? && Read(p, t).Withheld?)
      || (Read(p, s).Spells? && Read(p, t).Spells? && Related(p, names, Read(p, s).value, Read(p, t).value, depth + 1))
    case (Mapping(k, fs), Mapping(l, gs)) => k == l && RelatedFields(p, names, fs, gs, depth)
    case (ModelLike(fs), ModelLike(gs)) => RelatedFields(p, names, fs, gs, depth)
    case (SetOf(xs), SetOf(ys)) => RelatedItems(p, names, xs, ys, depth)
    case (Sequence(k, xs), Sequence(l, ys)) => k == l && RelatedItems(p, names, xs, ys, depth)
    case (Unsupported(_), Unsupported(_)) => true
    case _ => a == b
  }

  ghost predicate RelatedFields(p: Platform, names: seq<string>, fs: seq<Field>, gs: seq<Field>, depth: nat)
    requires depth <= MAX_DEPTH
    decreases MAX_DEPTH + 1 - depth, 0
  {
    && |fs| == |gs|
    && (forall i | 0 <= i < |fs| :: fs[i].key == gs[i].key)
    && (forall i | 0 <= i < |fs| ::
      IsSecret(p, names, fs[i].key) || Related(p, names, fs[i].value, gs[i].value, depth + 1))
  }

  ghost predicate RelatedItems(p: Platform, names: seq<string>, xs: seq<Value>, ys: seq<Value>, depth: nat)
    requires depth <= MAX_DEPTH
    decreases MAX_DEPTH + 1 - depth, 0
  {
    |xs| == |ys| && forall i | 0 <= i < |xs| :: Related(p, names, xs[i], ys[i], depth + 1)
  }

  lemma {:induction false} SameFields(p: Platform, names: seq<string>, fs: seq<Field>, gs: seq<Field>, depth: nat)
    requires Lawful(p) && depth <= MAX_DEPTH && RelatedFields(p, names, fs, gs, depth)
    ensures SanitizeFields(p, Folded(p, names), fs, depth) == SanitizeFields(p, Folded(p, names), gs, depth)
    ensures (exists f | f in fs :: IsFatal(p, f.key)) <==> (exists g | g in gs :: IsFatal(p, g.key))
    decreases MAX_DEPTH + 1 - depth, 0
  {
    forall i | 0 <= i < |fs| ensures IsHidden(p, Folded(p, names), fs[i].key) <==> IsSecret(p, names, fs[i].key) {
      HiddenIsSecret(p, names, fs[i].key);
    }
    hide IsHidden;
    hide IsSecret;
    forall i | 0 <= i < |fs| && !IsSecret(p, names, fs[i].key)
      ensures Sanitize(p, Folded(p, names), fs[i].value, depth + 1) == Sanitize(p, Folded(p, names), gs[i].value, depth + 1)
    {
      NonInterference(p, names, fs[i].value, gs[i].value, depth + 1);
    }
  }

  lemma {:induction false} SameItems(p: Platform, names: seq<string>, xs: seq<Value>, ys: seq<Value>, depth: nat)
    requires Lawful(p) && depth <= MAX_DEPTH && RelatedItems(p, names, xs, ys, depth)
    ensures SanitizeItems(p, Folded(p, names), xs, depth) == SanitizeItems(p, Folded(p, names), ys, depth)
    decreases MAX_DEPTH + 1 - depth, 0
  {
    forall i | 0 <= i < |xs|
      ensures Sanitize(p, Folded(p, names), xs[i], depth + 1) == Sanitize(p, Folded(p, names), ys[i], depth + 1)
    {
      NonInterference(p, names, xs[i], ys[i], depth + 1);
    }
  }

  lemma SpeltIsPrinted(p: Platform, sensitive: set<string>, text: string, depth: nat)
    requires Lawful(p) && depth <= MAX_DEPTH && Read(p, text).Spells?
    ensures var x := Sanitize(p, sensitive, Read(p, text).value, depth + 1);
      && IsJson(p, x) && NestsWithin(x, MAX_DEPTH + 1)
      && p.dumps(x).Some? && SanitizeText(p, sensitive, text, depth) == Str(p.dumps(x).value)
  {
    hide Sanitize;
    SanitizeKeepsJson(p, sensitive, Read(p, text).value, depth + 1);
    NestingIsBounded(p, sensitive, Read(p, text).value, depth + 1);
    NestsFurther(Sanitize(p, sensitive, Read(p, text).value, depth + 1), MAX_DEPTH - depth, MAX_DEPTH + 1);
  }

  /**
   Redaction is non-interfering: two values that differ only under sensitive or undecodable keys, at any nesting
   of containers and of JSON within strings, below the depth limit, or in strings too long to scan, come out equal.
   */
  lemma {:induction false} NonInterference(p: Platform, names: seq<string>, a: Value, b: Value, depth: nat)
    requires Lawful(p) && Related(p, names, a, b, depth)
    ensures Sanitize(p, Folded(p, names), a, depth) == Sanitize(p, Folded(p, names), b, depth)
    decreases MAX_DEPTH + 1 - depth, 1
  {
    if depth <= MAX_DEPTH && a != b {
      match (a, b)
      case (Str(s), Str(t)) =>
        if Read(p, s).Spells? {
          NonInterference(p, names, Read(p, s).value, Read(p, t).value, depth + 1);
          SpeltIsPrinted(p, Folded(p, names), s, depth);
          SpeltIsPrinted(p, Folded(p, names), t, depth);
        }
      case (Mapping(_, fs), Mapping(_, gs)) => SameFields(p, names, fs, gs, depth);
      case (ModelLike(fs), ModelLike(gs)) => SameFields(p, names, fs, gs, depth);
      case (SetOf(xs), SetOf(ys)) => SameItems(p, names, xs, ys, depth);
      case (Sequence(_, xs), Sequence(_, ys)) => SameItems(p, names, xs, ys, depth);
      case _ =>
    }
  }

  // ---------- nothing sensitive survives ----------

  /**
   No field with a hidden key holds anything but the mark, in containers and in the JSON that strings spell,
   followed through `rounds` readings; a string is read here whatever its length.
   */
  ghost predicate Clean(p: Platform, names: seq<string>, v: Value, rounds: nat)
    decreases rounds, v
  {
    match v
    case Str(text) =>
      rounds > 0 && BeginsLikeJson(p, text) && p.loads(p.strip(text)).Parsed? ==>
        Clean(p, names, p.loads(p.strip(text)).value, rounds - 1)
    case Mapping(_, fields) =>
      forall f | f in fields :: (IsSecret(p, names, f.key) ==> f.value == REDACTED) && Clean(p, names, f.value, rounds)
    case ModelLike(fields) =>
      forall f | f in fields :: (IsSecret(p, names, f.key) ==> f.value == REDACTED) && Clean(p, names, f.value, rounds)
    case SetOf(items) => forall x | x in items :: Clean(p, names, x, rounds)
    case Sequence(_, items) => forall x | x in items :: Clean(p, names, x, rounds)
    case _ => true
  }

  lemma MarkIsClean(p: Platform, names: seq<string>, rounds: nat)
    requires Lawful(p)
    ensures Clean(p, names, REDACTED, rounds)
  {
  }

  lemma {:induction false} FieldsAreClean(p: Platform, names: seq<string>, kind: Kind, fields: seq<Field>, depth: nat, rounds: nat)
    requires Lawful(p) && depth <= MAX_DEPTH
    ensures Clean(p, names, Mapping(kind, SanitizeFields(p, Folded(p, names), fields, depth)), rounds)
    decreases MAX_DEPTH + 1 - depth, 0
  {
    hide Sanitize;
    var r := SanitizeFields(p, Folded(p, names), fields, depth);
    MarkIsClean(p, names, rounds);
    forall i | 0 <= i < |r|
      ensures IsSecret(p, names, r[i].key) ==> r[i].value == REDACTED
      ensures Clean(p, names, r[i].value, rounds)
    {
      HiddenIsSecret(p, names, fields[i].key);
      ResultIsClean(p, names, fields[i].value, depth + 1, rounds);
    }
  }

  lemma {:induction false} ItemsAreClean(p: Platform, names: seq<string>, items: seq<Value>, depth: nat, rounds: nat)
    requires Lawful(p) && depth <= MAX_DEPTH
    ensures forall x | x in SanitizeItems(p, Folded(p, names), items, depth) :: Clean(p, names, x, rounds)
    decreases MAX_DEPTH + 1 - depth, 0
  {
    hide Sanitize;
    forall i | 0 <= i < |items| ensures Clean(p, names, SanitizeItems(p, Folded(p, names), items, depth)[i], rounds) {
      ResultIsClean(p, names, items[i], depth + 1, rounds);
    }
  }

  lemma {:induction false} TextIsClean(p: Platform, names: seq<string>, text: string, depth: nat, rounds: nat)
    requires Lawful(p) && depth <= MAX_DEPTH
    ensures Clean(p, names, SanitizeText(p, Folded(p, names), text, depth), rounds)
    decreases MAX_DEPTH + 1 - depth, 0
  {
    hide Sanitize;
    MarkIsClean(p, names, rounds);
    if Read(p, text).Spells? {
      SpeltIsPrinted(p, Folded(p, names), text, depth);
      if rounds > 0 {
        ResultIsClean(p, names, Read(p, text).value, depth + 1, rounds - 1);
      }
    }
  }

  /**
   No field reachable in a result, however deep and however often strings are read as JSON on the way, has a
   hidden key and a value other than the mark.
   */
  lemma {:induction false} ResultIsClean(p: Platform, names: seq<string>, v: Value, depth: nat, rounds: nat)
    requires Lawful(p)
    ensures Clean(p, names, Sanitize(p, Folded(p, names), v, depth), rounds)
    decreases MAX_DEPTH + 1 - depth, 1
  {
    MarkIsClean(p, names, rounds);
    if depth <= MAX_DEPTH {
      match v
      case Str(text) => TextIsClean(p, names, text, depth, rounds);
      case Mapping(kind, fields) => FieldsAreClean(p, names, Rebuilt(kind), fields, depth, rounds);
      case ModelLike(fields) => FieldsAreClean(p, names, Builtin, fields, depth, rounds);
      case SetOf(items) =>
        ItemsAreClean(p, names, items, depth, rounds);
        DistinctMembers(SanitizeItems(p, Folded(p, names), items, depth));
      case Sequence(_, items) => ItemsAreClean(p, names, items, depth, rounds);
      case _ =>
    }
  }

  // ---------- the configured names ----------

  /**
   For the names as they are configured: no field reachable in the redacted value, through containers and any number
   of readings of its strings, spells one of them and holds anything but the mark.
   */
  lemma {:induction false} HeadersAreClean(p: Platform, names: seq<string>, headers: Value, rounds: nat)
    requires Lawful(p)
    ensures Clean(p, names, SanitizeHeaders(p, headers, names), rounds)
  {
    ResultIsClean(p, names, headers, 0, rounds);
  }

  /** Two values that differ only under keys that spell one of the names come out equal. */
  lemma {:induction false} HeadersDoNotInterfere(p: Platform, names: seq<string>, a: Value, b: Value)
    requires Lawful(p) && Related(p, names, a, b, 0)
    ensures SanitizeHeaders(p, a, names) == SanitizeHeaders(p, b, names)
  {
    NonInterference(p, names, a, b, 0);
  }

  // ---------- nothing harmless is lost ----------

  /** The text does not start like JSON, or is no longer than is read and no JSON. */
  predicate IsPlain(p: Platform, text: string) {
    !BeginsLikeJson(p, text) || (|p.strip(text)| <= 8192 && p.loads(p.strip(text)) == NotJson)
  }

  predicate AllDistinct(items: seq<Value>) {
    forall i, j | 0 <= i < j < |items| :: items[i] != items[j]
  }

  /** There is nothing in the value to redact, and nothing redaction cannot deal with. */
  predicate IsHarmless(p: Platform, names: seq<string>, v: Value) {
    match v
    case Str(text) => IsPlain(p, text)
    case Bytes(_) => true
    case Scalar(_) => true
    case Mapping(kind, fields) =>
      && kind != Custom(false)
      && (forall f | f in fields :: !IsSecret(p, names, f.key) && IsReadable(p, f.key) && IsHarmless(p, names, f.value))
    case Sequence(kind, items) => kind != Custom(false) && forall x | x in items :: IsHarmless(p, names, x)
    case SetOf(items) => AllDistinct(items) && forall x | x in items :: p.hashable(x) && IsHarmless(p, names, x)
    case _ => false
  }

  lemma {:induction false} DistinctStays(items: seq<Value>)
    requires AllDistinct(items)
    ensures Distinct(items) == items
  {
    if items != [] {
      var n := |items| - 1;
      DistinctStays(items[..n]);
      assert items == items[..n] + [items[n]];
    }
  }

  lemma {:induction false} HarmlessFieldsStay(p: Platform, names: seq<string>, fields: seq<Field>, depth: nat)
    requires depth < MAX_DEPTH
    requires forall f | f in fields :: !IsSecret(p, names, f.key) && IsReadable(p, f.key) && IsHarmless(p, names, f.value)
    requires forall f | f in fields :: NestsWithin(f.value, MAX_DEPTH - depth - 1)
    ensures SanitizeFields(p, Folded(p, names), fields, depth) == fields
    ensures !exists f | f in fields :: IsFatal(p, f.key)
    decreases MAX_DEPTH + 1 - depth, 0
  {
    hide Sanitize;
    var r := SanitizeFields(p, Folded(p, names), fields, depth);
    forall i | 0 <= i < |fields| ensures r[i] == fields[i] {
      assert fields[i] in fields;
      HiddenIsSecret(p, names, fields[i].key);
      HarmlessStays(p, names, fields[i].value, depth + 1);
    }
    forall f | f in fields ensures !IsFatal(p, f.key) {
      HiddenIsSecret(p, names, f.key);
    }
  }

  lemma {:induction false} HarmlessItemsStay(p: Platform, names: seq<string>, items: seq<Value>, depth: nat)
    requires depth < MAX_DEPTH
    requires forall x | x in items :: IsHarmless(p, names, x) && NestsWithin(x, MAX_DEPTH - depth - 1)
    ensures SanitizeItems(p, Folded(p, names), items, depth) == items
    decreases MAX_DEPTH + 1 - depth, 0
  {
    hide Sanitize;
    forall i | 0 <= i < |items| ensures SanitizeItems(p, Folded(p, names), items, depth)[i] == items[i] {
      assert items[i] in items;
      HarmlessStays(p, names, items[i], depth + 1);
    }
  }

  lemma {:induction false} HarmlessStays(p: Platform, names: seq<string>, v: Value, depth: nat)
    requires depth <= MAX_DEPTH && IsHarmless(p, names, v) && NestsWithin(v, MAX_DEPTH - depth)
    ensures Sanitize(p, Folded(p, names), v, depth) == v
    decreases MAX_DEPTH + 1 - depth, 1
  {
    match v
    case Mapping(_, fields) => HarmlessFieldsStay(p, names, fields, depth);
    case Sequence(_, items) => HarmlessItemsStay(p, names, items, depth);
    case SetOf(items) =>
      HarmlessItemsStay(p, names, items, depth);
      DistinctStays(items);
    case _ =>
  }

  /** A value without secrets that nests at most ten containers comes back as it went in. */
  lemma HarmlessHeadersStay(p: Platform, names: seq<string>, v: Value)
    requires IsHarmless(p, names, v) && NestsWithin(v, 10)
    ensures SanitizeHeaders(p, v, names) == v
  {
    hide Sanitize;
    hide IsHarmless;
    hide NestsWithin;
    HarmlessStays(p, names, v, 0);
  }

  /** A string that spells a harmless value is printed again with that value. */
  lemma HarmlessTextStays(p: Platform, names: seq<string>, text: string, v: Value)
    requires Lawful(p) && Read(p, text) == Spells(v)
    requires IsHarmless(p, names, v) && NestsWithin(v, MAX_DEPTH - 1)
    ensures IsJson(p, v) && NestsWithin(v, MAX_DEPTH + 1)
    ensures p.dumps(v).Some? && SanitizeText(p, Folded(p, names), text, 0) == Str(p.dumps(v).value)
  {
    hide NestsWithin;
    hide IsHarmless;
    HarmlessStays(p, names, v, 1);
    NestsFurther(v, MAX_DEPTH - 1, MAX_DEPTH + 1);
    hide Sanitize;
    hide IsJson;
  }

  /** The same for JSON in a string: what is printed in its place reads back as the value that was spelt. */
  lemma HarmlessJsonStays(p: Platform, names: seq<string>, text: string, v: Value)
    requires Lawful(p)
    requires BeginsLikeJson(p, text) && |p.strip(text)| <= 8192 && p.loads(p.strip(text)) == Parsed(v)
    requires IsHarmless(p, names, v) && NestsWithin(v, 9)
    ensures var r := SanitizeHeaders(p, Str(text), names); r.Str? && p.loads(p.strip(r.text)) == Parsed(v)
  {
    HeadersOfText(p, names, text);
    hide SanitizeHeaders;
    hide Sanitize;
    hide IsHarmless;
    hide NestsWithin;
    HarmlessTextStays(p, names, text, v);
    hide IsJson;
  }

  /** What cannot be walked or read in full is withheld, whatever it holds. */
  predicate IsOpaque(p: Platform, v: Value) {
    match v
    case Unsupported(_) => true
    case Undumpable => true
    case Mapping(_, fields) => exists f | f in fields :: !f.key.Raw? && !IsReadable(p, f.key)
    case ModelLike(fields) => exists f | f in fields :: !f.key.Raw? && !IsReadable(p, f.key)
    case Str(text) => BeginsLikeJson(p, text) && (|p.strip(text)| > 8192 || p.loads(p.strip(text)) == Crash)
    case _ => false
  }

  lemma OpaqueIsWithheld(p: Platform, names: seq<string>, v: Value)
    requires IsOpaque(p, v)
    ensures SanitizeHeaders(p, v, names) == Str("[REDACTED]")
  {
    if v.Mapping? || v.ModelLike? {
      var f :| f in v.fields && !f.key.Raw? && !IsReadable(p, f.key);
      HiddenIsSecret(p, names, f.key);
    }
  }

  /** An object that dumps itself, and a mapping that cannot be rebuilt, come out as the plain mapping of their fields. */
  lemma DumpsAsMapping(p: Platform, names: seq<string>, fields: seq<Field>)
    ensures SanitizeHeaders(p, ModelLike(fields), names) == SanitizeHeaders(p, Mapping(Builtin, fields), names)
    ensures SanitizeHeaders(p, Mapping(Custom(false), fields), names) == SanitizeHeaders(p, Mapping(Builtin, fields), names)
  {
  }

  lemma {:induction false} DistinctIsDistinct(items: seq<Value>)
    ensures AllDistinct(Distinct(items))
  {
    if items != [] {
      DistinctIsDistinct(items[..|items| - 1]);
    }
  }

  /** A set stays a set: members that redaction makes equal become one. */
  lemma SetsStaySets(p: Platform, names: seq<string>, items: seq<Value>)
    ensures var r := SanitizeHeaders(p, SetOf(items), names); r == REDACTED || (r.SetOf? && AllDistinct(r.items))
  {
    DistinctIsDistinct(SanitizeItems(p, Folded(p, names), items, 0));
  }

  /** A set of objects whose dumps cannot be members of a set is withheld as a whole. */
  lemma UnhashableSetIsWithheld(p: Platform, names: seq<string>, items: seq<Value>, fields: seq<Field>)
    requires ModelLike(fields) in items
    requires var dump := Mapping(Builtin, fields); IsHarmless(p, names, dump) && NestsWithin(dump, 9) && !p.hashable(dump)
    ensures SanitizeHeaders(p, SetOf(items), names) == Str("[REDACTED]")
  {
    var dump, sensitive := Mapping(Builtin, fields), Folded(p, names);
    HarmlessStays(p, names, dump, 1);
    assert Sanitize(p, sensitive, ModelLike(fields), 1) == dump;
    var i :| 0 <= i < |items| && items[i] == ModelLike(fields);
    var sanitized := SanitizeItems(p, sensitive, items, 0);
    assert sanitized[i] == dump && dump in sanitized;
  }

  /** Whatever the headers, at most eleven containers are nested in the result. */
  lemma {:induction false} HeadersNest(p: Platform, names: seq<string>, headers: Value)
    ensures NestsWithin(SanitizeHeaders(p, headers, names), 11)
  {
    hide Sanitize;
    hide NestsWithin;
    NestingIsBounded(p, Folded(p, names), headers, 0);
  }

  lemma HeadersOfText(p: Platform, names: seq<string>, text: string)
    ensures SanitizeHeaders(p, Str(text), names) == SanitizeText(p, Folded(p, names), text, 0)
  {
    hide SanitizeText;
  }

  // ---------- redacting twice ----------

  /** Every string in the value is taken as it is: none of them is JSON. */
  predicate NoJsonText(p: Platform, v: Value) {
    match v
    case Str(text) => Read(p, text) == AsIs
    case Mapping(_, fields) => forall f | f in fields :: NoJsonText(p, f.value)
    case ModelLike(fields) => forall f | f in fields :: NoJsonText(p, f.value)
    case SetOf(items) => forall x | x in items :: NoJsonText(p, x)
    case Sequence(_, items) => forall x | x in items :: NoJsonText(p, x)
    case _ => true
  }

  lemma {:induction false} DistinctTwice(items: seq<Value>)
    ensures Distinct(Distinct(items)) == Distinct(items)
  {
    if items != [] {
      var n := |items| - 1;
      var rest := Distinct(items[..n]);
      DistinctTwice(items[..n]);
      if items[n] !in rest {
        assert (rest + [items[n]])[..|rest|] == rest;
      }
    }
  }

  lemma MarkStays(p: Platform, sensitive: set<string>, depth: nat)
    requires Lawful(p)
    ensures Sanitize(p, sensitive, REDACTED, depth) == REDACTED
  {
  }

  lemma {:induction false} FieldsTwice(p: Platform, sensitive: set<string>, fields: seq<Field>, depth: nat)
    requires Lawful(p) && depth <= MAX_DEPTH
    requires forall f | f in fields :: NoJsonText(p, f.value)
    ensures var r := SanitizeFields(p, sensitive, fields, depth); SanitizeFields(p, sensitive, r, depth) == r
    decreases MAX_DEPTH + 1 - depth, 0
  {
    hide Sanitize;
    var r := SanitizeFields(p, sensitive, fields, depth);
    forall i | 0 <= i < |r| ensures SanitizeFields(p, sensitive, r, depth)[i] == r[i] {
      Idempotent(p, sensitive, fields[i].value, depth + 1);
    }
  }

  lemma {:induction false} ItemsTwice(p: Platform, sensitive: set<string>, items: seq<Value>, depth: nat)
    requires Lawful(p) && depth <= MAX_DEPTH
    requires forall x | x in items :: NoJsonText(p, x)
    ensures forall x | x in SanitizeItems(p, sensitive, items, depth) :: Sanitize(p, sensitive, x, depth + 1) == x
    decreases MAX_DEPTH + 1 - depth, 0
  {
    hide Sanitize;
    var r := SanitizeItems(p, sensitive, items, depth);
    forall x | x in r ensures Sanitize(p, sensitive, x, depth + 1) == x {
      var i :| 0 <= i < |r| && r[i] == x;
      Idempotent(p, sensitive, items[i], depth + 1);
    }
  }

  lemma FixedItems(p: Platform, sensitive: set<string>, items: seq<Value>, depth: nat)
    requires depth <= MAX_DEPTH
    requires forall x | x in items :: Sanitize(p, sensitive, x, depth + 1) == x
    ensures SanitizeItems(p, sensitive, items, depth) == items
  {
    hide Sanitize;
    forall i | 0 <= i < |items| ensures SanitizeItems(p, sensitive, items, depth)[i] == items[i] {
      assert items[i] in items;
    }
  }

  /** On values without JSON in their strings, redacting what is already redacted changes nothing. */
  lemma {:induction false} Idempotent(p: Platform, sensitive: set<string>, v: Value, depth: nat)
    requires Lawful(p)
    requires NoJsonText(p, v)
    ensures var r := Sanitize(p, sensitive, v, depth); Sanitize(p, sensitive, r, depth) == r
    decreases MAX_DEPTH + 1 - depth, 1
  {
    MarkStays(p, sensitive, depth);
    if depth <= MAX_DEPTH {
      match v
      case Mapping(kind, fields) =>
        FieldsTwice(p, sensitive, fields, depth);
        FatalKeysStay(p, sensitive, fields, depth);
      case ModelLike(fields) =>
        FieldsTwice(p, sensitive, fields, depth);
        FatalKeysStay(p, sensitive, fields, depth);
      case SetOf(items) =>
        var r := SanitizeItems(p, sensitive, items, depth);
        ItemsTwice(p, sensitive, items, depth);
        DistinctMembers(r);
        FixedItems(p, sensitive, Distinct(r), depth);
        DistinctTwice(r);
      case Sequence(kind, items) =>
        ItemsTwice(p, sensitive, items, depth);
        FixedItems(p, sensitive, SanitizeItems(p, sensitive, items, depth), depth);
      case _ =>
    }
  }

  lemma FatalKeysStay(p: Platform, sensitive: set<string>, fields: seq<Field>, depth: nat)
    requires depth <= MAX_DEPTH
    ensures (exists f | f in SanitizeFields(p, sensitive, fields, depth) :: IsFatal(p, f.key))
       ==> exists f | f in fields :: IsFatal(p, f.key)
  {
    hide Sanitize;
    var r := SanitizeFields(p, sensitive, fields, depth);
    forall f | f in r ensures exists g | g in fields :: g.key == f.key {
      var i :| 0 <= i < |r| && r[i] == f;
      assert fields[i] in fields;
    }
  }

  // ---------- in place, on every attempt ----------

  /** One event of a payload about to be posted. */
  class Record {
    var metadata: Value

    constructor (metadata: Value)
      ensures this.metadata == metadata
    {
      this.metadata := metadata;
    }
  }

  predicate IsDict(v: Value) {
    v.Mapping? && v.kind == Builtin
  }

  function RedactedMetadata(p: Platform, sensitiveHeaders: seq<string>, metadata: Value): Value {
    if IsDict(metadata) then SanitizeHeaders(p, metadata, sensitiveHeaders) else metadata
  }

  /** Rewrites the metadata of every event that has a dict for it. */
  method RedactSensitiveHeaders(p: Platform, sensitiveHeaders: seq<string>, events: seq<Record>)
    requires forall i, j | 0 <= i < j < |events| :: events[i] != events[j]
    modifies events
    ensures forall i | 0 <= i < |events| ::
      events[i].metadata == RedactedMetadata(p, sensitiveHeaders, old(events[i].metadata))
    ensures forall i | 0 <= i < |events| :: !(old(events[i].metadata).Mapping? && old(events[i].metadata).kind == Builtin) ==>
      events[i].metadata == old(events[i].metadata)
  {
    hide Sanitize;
    for i := 0 to |events|
      invariant forall j | 0 <= j < i :: events[j].metadata == RedactedMetadata(p, sensitiveHeaders, old(events[j].metadata))
      invariant forall j | i <= j < |events| :: events[j].metadata == old(events[j].metadata)
    {
      if events[i].metadata.Mapping? && events[i].metadata.kind == Builtin {
        events[i].metadata := SanitizeHeaders(p, events[i].metadata, sensitiveHeaders);
      }
    }
  }

  /** A payload's metadata, once redacted, shows nothing under the configured names, and does not depend on it. */
  lemma {:induction false} MetadataIsRedacted(p: Platform, sensitiveHeaders: seq<string>, a: Value, b: Value, rounds: nat)
    requires Lawful(p) && IsDict(a)
    ensures Clean(p, sensitiveHeaders, RedactedMetadata(p, sensitiveHeaders, a), rounds)
    ensures Related(p, sensitiveHeaders, a, b, 0) ==>
      RedactedMetadata(p, sensitiveHeaders, a) == RedactedMetadata(p, sensitiveHeaders, b)
  {
    hide Sanitize;
    HeadersAreClean(p, sensitiveHeaders, a, rounds);
    if Related(p, sensitiveHeaders, a, b, 0) {
      HeadersDoNotInterfere(p, sensitiveHeaders, a, b);
    }
  }

  /** A retry redacts the same payload again; without JSON in its strings the second pass changes nothing. */
  lemma RetryLeavesMetadata(p: Platform, sensitiveHeaders: seq<string>, metadata: Value)
    requires Lawful(p)
    requires NoJsonText(p, metadata)
    ensures var once := RedactedMetadata(p, sensitiveHeaders, metadata);
      RedactedMetadata(p, sensitiveHeaders, once) == once
  {
    hide Sanitize;
    Idempotent(p, set h | h in sensitiveHeaders :: p.fold(h), metadata, 0);
  }
}
