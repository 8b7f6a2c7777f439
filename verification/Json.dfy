/** JSON trees, what decoding does to them, and the removal of volatile fields. */
module Json {
  import opened Wrappers

  /** A number is its text.  `typed` marks a Go slice of structs rather than a decoded list. */
  datatype Json =
    | Null
    | Bool(flag: bool)
    | Num(digits: string)
    | Str(text: string)
    | Arr(items: seq<Json>, typed: bool)
    | Obj(fields: map<string, Json>)

  /**
   Marshalling a value and decoding the text: every list is a plain list, and `number`
   says what becomes of a number's text.
   */
  function Decode(number: string -> string, j: Json): Json
    decreases j
  {
    match j
    case Num(digits) => Num(number(digits))
    case Arr(items, _) => Arr(seq(|items|, i requires 0 <= i < |items| => Decode(number, items[i])), false)
    case Obj(fields) => Obj(map k | k in fields :: Decode(number, fields[k]))
    case _ => j
  }

  /** Decoding with UseNumber keeps the text of numbers. */
  function KeepDigits(digits: string): string {
    digits
  }

  /** Deletes the given keys from every object, at every depth. */
  function Remove(keys: set<string>, j: Json): Json
    decreases j
  {
    match j
    case Arr(items, typed) => Arr(seq(|items|, i requires 0 <= i < |items| => Remove(keys, items[i])), typed)
    case Obj(fields) => Obj(map k | k in fields && k !in keys :: Remove(keys, fields[k]))
    case _ => j
  }

  ghost predicate Settled(number: string -> string) {
    forall digits :: number(number(digits)) == number(digits)
  }

  /** A decoded value is unchanged by decoding it again without touching its numbers. */
  lemma {:induction false} KeepDecoded(number: string -> string, j: Json)
    ensures Decode(KeepDigits, Decode(number, j)) == Decode(number, j)
    decreases j
  {
    match j
    case Arr(items, _) =>
      forall i | 0 <= i < |items| ensures Decode(KeepDigits, Decode(number, items[i])) == Decode(number, items[i]) {
        KeepDecoded(number, items[i]);
      }
    case Obj(fields) =>
      forall k | k in fields ensures Decode(KeepDigits, Decode(number, fields[k])) == Decode(number, fields[k]) {
        KeepDecoded(number, fields[k]);
      }
    case _ =>
  }

  lemma {:induction false} DecodeTwice(number: string -> string, j: Json)
    requires Settled(number)
    ensures Decode(number, Decode(number, j)) == Decode(number, j)
    decreases j
  {
    match j
    case Arr(items, _) =>
      forall i | 0 <= i < |items| ensures Decode(number, Decode(number, items[i])) == Decode(number, items[i]) {
        DecodeTwice(number, items[i]);
      }
    case Obj(fields) =>
      forall k | k in fields ensures Decode(number, Decode(number, fields[k])) == Decode(number, fields[k]) {
        DecodeTwice(number, fields[k]);
      }
    case _ =>
  }

  lemma {:induction false} DecodeKept(number: string -> string, j: Json)
    ensures Decode(number, Decode(KeepDigits, j)) == Decode(number, j)
    decreases j
  {
    match j
    case Arr(items, _) =>
      forall i | 0 <= i < |items| ensures Decode(number, Decode(KeepDigits, items[i])) == Decode(number, items[i]) {
        DecodeKept(number, items[i]);
      }
    case Obj(fields) =>
      forall k | k in fields ensures Decode(number, Decode(KeepDigits, fields[k])) == Decode(number, fields[k]) {
        DecodeKept(number, fields[k]);
      }
    case _ =>
  }

  /** Removing keys once removes them for good. */
  lemma {:induction false} RemoveTwice(keys: set<string>, j: Json)
    ensures Remove(keys, Remove(keys, j)) == Remove(keys, j)
    decreases j
  {
    match j
    case Arr(items, _) =>
      forall i | 0 <= i < |items| ensures Remove(keys, Remove(keys, items[i])) == Remove(keys, items[i]) {
        RemoveTwice(keys, items[i]);
      }
    case Obj(fields) =>
      forall k | k in fields ensures Remove(keys, Remove(keys, fields[k])) == Remove(keys, fields[k]) {
        RemoveTwice(keys, fields[k]);
      }
    case _ =>
  }

  /** The trees agree at every depth but for the ignored fields, for what `number` makes equal, and for what kind of
      list a list is. */
  predicate SameBut(number: string -> string, ignored: set<string>, a: Json, b: Json)
    decreases a
  {
    match a
    case Num(digits) => b.Num? && number(digits) == number(b.digits)
    case Arr(items, _) =>
      b.Arr? && |items| == |b.items| && forall i | 0 <= i < |items| :: SameBut(number, ignored, items[i], b.items[i])
    case Obj(fields) =>
      && b.Obj?
      && (forall k | k in b.fields && k !in ignored :: k in fields)
      && (forall k | k in fields && k !in ignored :: k in b.fields && SameBut(number, ignored, fields[k], b.fields[k]))
    case _ => a == b
  }

  /** What removal and decoding leave is equal exactly when the trees agree but for the removed fields. */
  lemma {:induction false} RemainsAgree(number: string -> string, keys: set<string>, a: Json, b: Json)
    ensures Remove(keys, Decode(number, a)) == Remove(keys, Decode(number, b)) <==> SameBut(number, keys, a, b)
    decreases a
  {
    match a
    case Arr(items, _) =>
      if b.Arr? && |items| == |b.items| {
        forall i | 0 <= i < |items|
          ensures Remains(number, keys, items[i]) == Remains(number, keys, b.items[i]) <==>
                  SameBut(number, keys, items[i], b.items[i])
        {
          RemainsAgree(number, keys, items[i], b.items[i]);
        }
        ListRemains(number, keys, a, b);
      } else if b.Arr? {
        assert |Remains(number, keys, a).items| != |Remains(number, keys, b).items|;
      }
    case Obj(fields) =>
      if b.Obj? {
        forall k | k in fields && k in b.fields
          ensures Remains(number, keys, fields[k]) == Remains(number, keys, b.fields[k]) <==>
                  SameBut(number, keys, fields[k], b.fields[k])
        {
          RemainsAgree(number, keys, fields[k], b.fields[k]);
        }
        ObjectRemains(number, keys, a, b);
      }
    case _ =>
  }

  function Remains(number: string -> string, keys: set<string>, j: Json): Json {
    Remove(keys, Decode(number, j))
  }

  lemma ListRemains(number: string -> string, keys: set<string>, a: Json, b: Json)
    requires a.Arr? && b.Arr? && |a.items| == |b.items|
    ensures Remains(number, keys, a) == Remains(number, keys, b) <==>
            forall i | 0 <= i < |a.items| :: Remains(number, keys, a.items[i]) == Remains(number, keys, b.items[i])
  {
    var x, y := Remains(number, keys, a).items, Remains(number, keys, b).items;
    assert forall i | 0 <= i < |a.items| :: x[i] == Remains(number, keys, a.items[i]);
    assert forall i | 0 <= i < |b.items| :: y[i] == Remains(number, keys, b.items[i]);
    assert x == y <==> Remains(number, keys, a) == Remains(number, keys, b);
  }

  lemma ObjectRemains(number: string -> string, keys: set<string>, a: Json, b: Json)
    requires a.Obj? && b.Obj?
    ensures Remains(number, keys, a) == Remains(number, keys, b) <==>
            && (forall k | k in b.fields && k !in keys :: k in a.fields)
            && (forall k | k in a.fields && k !in keys ::
                  k in b.fields && Remains(number, keys, a.fields[k]) == Remains(number, keys, b.fields[k]))
  {
    var x, y := Remains(number, keys, a).fields, Remains(number, keys, b).fields;
    assert forall k :: (k in x <==> k in a.fields && k !in keys) && (k in y <==> k in b.fields && k !in keys);
    assert forall k | k in x :: x[k] == Remains(number, keys, a.fields[k]);
    assert forall k | k in y :: y[k] == Remains(number, keys, b.fields[k]);
    if forall k :: (k in x <==> k in y) && (k in x ==> x[k] == y[k]) {
      assert x == y;
    }
  }

  lemma {:induction false} SameAsItself(number: string -> string, ignored: set<string>, j: Json)
    ensures SameBut(number, ignored, j, j)
  {
    RemainsAgree(number, ignored, j, j);
  }

  lemma OneFieldDiffers(number: string -> string, ignored: set<string>, fields: map<string, Json>, name: string,
      value: Json)
    requires name in fields
    ensures SameBut(number, ignored, Obj(fields), Obj(fields[name := value])) <==>
            name in ignored || SameBut(number, ignored, fields[name], value)
  {
    forall k | k in fields && k != name ensures SameBut(number, ignored, fields[k], fields[name := value][k]) {
      SameAsItself(number, ignored, fields[k]);
    }
  }

  /** Marshalling keeps everything but what kind of list a list is. */
  lemma {:induction false} DecodedSame(j: Json)
    ensures SameBut(KeepDigits, {}, Decode(KeepDigits, j), j)
    decreases j
  {
    match j
    case Arr(items, _) =>
      forall i | 0 <= i < |items| {
        DecodedSame(items[i]);
      }
    case Obj(fields) =>
      forall k | k in fields {
        DecodedSame(fields[k]);
      }
    case _ =>
  }

  /** A field of an object, if there is one. */
  function Field(j: Json, name: string): Option<Json> {
    if j.Obj? && name in j.fields then Some(j.fields[name]) else None
  }

  /** No object in the tree, at any depth, has one of the keys. */
  predicate Without(keys: set<string>, j: Json)
    decreases j
  {
    match j
    case Arr(items, _) => forall i | 0 <= i < |items| :: Without(keys, items[i])
    case Obj(fields) => forall k | k in fields :: k !in keys && Without(keys, fields[k])
    case _ => true
  }

  lemma {:induction false} RemoveRemoves(keys: set<string>, j: Json)
    ensures Without(keys, Remove(keys, j))
    ensures Without(keys, j) ==> Remove(keys, j) == j
    decreases j
  {
    match j
    case Arr(items, _) =>
      forall i | 0 <= i < |items| { RemoveRemoves(keys, items[i]); }
    case Obj(fields) =>
      forall k | k in fields { RemoveRemoves(keys, fields[k]); }
    case _ =>
  }
}
