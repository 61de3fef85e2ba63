/** What redaction does at each place of a value, and to each character of a string. */
module RedactedPlaces {
  import opened Wrappers
  import opened Json
  import opened JsonPointer
  import opened Redaction
  import opened Text
  import Sorting

  // ----- Strings -----

  /** The first occurrence of a secret becomes three stars, and what is behind it is masked alone; without an occurrence
      nothing changes. */
  lemma MaskFirst(a: string, secret: string, b: string)
    requires secret != ""
    requires forall i: nat | i < |a| :: !OccursAt(a + secret + b, secret, i)
    ensures MaskAll(a + secret + b, [secret]) == a + "***" + MaskAll(b, [secret])
    ensures forall s :: !Contains(s, secret) ==> MaskAll(s, [secret]) == s
  {
    FoundBetween(a, secret, b);
    hide Find, Replace, MaskAll, OccursAt;
    MaskOne(a + secret + b, secret);
    MaskOne(b, secret);
    ReplaceAt(a + secret + b, secret, MASK, |a|);
    forall s | !Contains(s, secret)
      ensures MaskAll(s, [secret]) == s
    {
      assert secret in [secret];
      MaskAllChangesNothing(s, [secret]);
    }
  }

  /** Several secrets are masked one after the other; the empty one is skipped. */
  lemma {:induction false} MaskInOrder(s: string, a: seq<string>, b: seq<string>)
    ensures MaskAll(s, a + b) == MaskAll(MaskAll(s, a), b)
    ensures MaskAll(s, []) == s && MaskAll(s, [""]) == s
  {
    hide Mask;
    assert [""][..0] == [];
    assert Mask(s, "") == s by { SkipEmpty(s); }
    if b == [] {
      assert a + b == a;
    } else {
      assert (a + b)[..|a + b| - 1] == a + b[..|b| - 1];
      MaskInOrder(s, a, b[..|b| - 1]);
    }
  }

  lemma SkipEmpty(s: string)
    ensures Mask(s, "") == s
  {
  }

  /** Secrets are ordered by their length in UTF-8, which is the sum over the characters. */
  lemma {:induction false} ByteLengthMeaning(a: string, b: string, c: char)
    ensures ByteLength(a + b) == ByteLength(a) + ByteLength(b) && ByteLength("") == 0
    ensures ByteLength([c]) == 1 <==> c as int < 0x80
    ensures ByteLength([c]) == 2 <==> 0x80 <= c as int < 0x800
    ensures ByteLength([c]) == 3 <==> 0x800 <= c as int < 0x1_0000
    ensures ByteLength([c]) == 4 <==> 0x1_0000 <= c as int
  {
    assert [c][1..] == "" && ByteLength("") == 0;
    if a == "" {
      assert a + b == b;
    } else {
      assert (a + b)[1..] == a[1..] + b;
      ByteLengthMeaning(a[1..], b, c);
    }
  }

  /** Of two secrets in masking order the first is longer, or as long and not greater. */
  lemma OrderedIff(secrets: seq<string>)
    ensures Ordered(secrets) <==>
            forall i, j | 0 <= i < j < |secrets| ::
              || ByteLength(secrets[i]) > ByteLength(secrets[j])
              || (ByteLength(secrets[i]) == ByteLength(secrets[j]) && Sorting.LexLe(secrets[i], secrets[j]))
  {
  }

  // ----- Values -----

  /** Places with the same kind of value: a string has been masked, an object has the same members, an array as many
      items, and every other value is the same. */
  predicate Counterpart(before: Option<Value>, after: Option<Value>, secrets: seq<string>) {
    match (before, after)
    case (None, None) => true
    case (Some(String(s)), Some(String(t))) => t == MaskAll(s, secrets)
    case (Some(Array(items)), Some(Array(others))) => |items| == |others|
    case (Some(Object(fields)), Some(Object(others))) => fields.Keys == others.Keys
    case (Some(v), Some(w)) => v == w && !v.String? && !v.Array? && !v.Object?
    case _ => false
  }

  lemma {:induction false} RedactedItem(items: seq<Value>, secrets: seq<string>, i: nat)
    ensures |RedactItems(items, secrets)| == |items|
    ensures i < |items| ==> RedactItems(items, secrets)[i] == RedactWith(items[i], secrets)
  {
    hide RedactWith;
    if items != [] { RedactedItem(items[1..], secrets, if i > 0 then i - 1 else 0); }
  }

  /** Main result for values: every place of the redacted value is a place of the original, and the other way round;
      there the string is masked, and nothing else changes. */
  lemma {:induction false} PlacesAreKept(v: Value, secrets: seq<string>, tokens: Tokens)
    ensures Counterpart(Lookup(v, tokens), Lookup(RedactWith(v, secrets), tokens), secrets)
  {
    hide MaskAll, ArrayIndex;
    var w := RedactWith(v, secrets);
    if v.Array? { RedactedItem(v.items, secrets, 0); }
    if tokens != [] {
      var token := tokens[0];
      match v
      case Array(items) =>
        var i := ArrayIndex(token);
        if i.Some? {
          RedactedItem(items, secrets, i.value);
          if i.value < |items| { PlacesAreKept(items[i.value], secrets, tokens[1..]); }
        }
      case Object(fields) => if token in fields { PlacesAreKept(fields[token], secrets, tokens[1..]); }
      case _ =>
    }
  }
}
