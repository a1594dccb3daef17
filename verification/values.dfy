/**
 The candidate profile: the dictionary the resume extraction returns, with its
 seven known keys and the shapes their values take (a string, a number, a list of
 strings, or a category-to-technologies mapping for the tech stack).
 */
module Values {
  import opened Text

  /** JSON scalars as Python sees them after decoding. */
  datatype Scalar = Null | Bool(b: bool) | Num(n: int) | Str(s: string)

  /** One entry of a categorised tech stack: a list of technologies or a single value. */
  datatype CatVal = Items(items: seq<string>) | Leaf(leaf: Scalar)

  /** A profile field value. */
  datatype Value =
    | Atom(atom: Scalar)
    | Strs(strs: seq<string>)
    | Cats(cats: seq<(string, CatVal)>)

  /**
   A decoded JSON object, members in insertion order. A Python dict holds each key
   once; the profiles the application handles are meant with distinct keys, and `Get`
   reads the first member with a key.
   */
  type Profile = seq<(string, Value)>

  const FullName := "full_name"
  const Email := "email"
  const PhoneNumber := "phone_number"
  const YearsOfExperience := "years_of_experience"
  const DesiredPositions := "desired_positions"
  const CurrentLocation := "current_location"
  const TechStack := "tech_stack"

  /** The values Python counts as false: `None`, `False`, `0`, `""`, `[]` and `{}`. */
  const Falsy: seq<Value> := [Atom(Null), Atom(Bool(false)), Atom(Num(0)), Atom(Str("")), Strs([]), Cats([])]

  /** Python truthiness, the test behind every `if info.get(key)`. */
  function Truthy(v: Value): (r: bool)
    ensures !r <==> v in Falsy
  {
    match v
    case Atom(Null) => false
    case Atom(Bool(b)) => b
    case Atom(Num(n)) => n != 0
    case Atom(Str(s)) => s != ""
    case Strs(xs) => xs != []
    case Cats(cs) => cs != []
  }

  predicate HasKey(p: Profile, key: string) {
    exists i :: 0 <= i < |p| && p[i].0 == key
  }

  /** `info.get(key)`: the value stored under `key`, or `None` when the key is absent. */
  function Get(p: Profile, key: string): (v: Value)
    ensures !HasKey(p, key) ==> v == Atom(Null)
    ensures HasKey(p, key) ==>
      exists i :: 0 <= i < |p| && p[i] == (key, v) && forall j :: 0 <= j < i ==> p[j].0 != key
  {
    if p == [] then Atom(Null)
    else if p[0].0 == key then p[0].1
    else
      var v := Get(p[1..], key);
      assert HasKey(p, key) ==> HasKey(p[1..], key) by {
        if HasKey(p, key) {
          var i :| 0 <= i < |p| && p[i].0 == key;
          assert p[1..][i - 1].0 == key;
        }
      }
      v
  }

  /** `info[key] = v`: replaces the value of an existing key in place, or appends a new member. */
  function Put(p: Profile, key: string, v: Value): (r: Profile)
    ensures HasKey(r, key)
    ensures HasKey(p, key) ==> |r| == |p|
    ensures !HasKey(p, key) ==> r == p + [(key, v)]
    decreases |p|
  {
    if p == [] then
      assert [(key, v)][0].0 == key;
      [(key, v)]
    else if p[0].0 == key then
      assert ([(key, v)] + p[1..])[0].0 == key;
      [(key, v)] + p[1..]
    else
      var rest := Put(p[1..], key, v);
      assert HasKey(p[1..], key) <==> HasKey(p, key) by {
        if HasKey(p, key) {
          var i :| 0 <= i < |p| && p[i].0 == key;
          assert p[1..][i - 1].0 == key;
        }
        if HasKey(p[1..], key) {
          var i :| 0 <= i < |p[1..]| && p[1..][i].0 == key;
          assert p[i + 1].0 == key;
        }
      }
      assert HasKey([p[0]] + rest, key) by {
        var i :| 0 <= i < |rest| && rest[i].0 == key;
        assert ([p[0]] + rest)[i + 1].0 == key;
      }
      [p[0]] + rest
  }

  /** Writing one key is seen by reads of that key and by no other read. */
  lemma {:induction false} GetPut(p: Profile, key: string, v: Value, other: string)
    ensures Get(Put(p, key, v), other) == if other == key then v else Get(p, other)
    decreases |p|
  {
    if p != [] && p[0].0 != key {
      GetPut(p[1..], key, v, other);
      assert Put(p, key, v)[1..] == Put(p[1..], key, v);
    }
  }

  /** Python's `repr` of a string, without the escaping of quotes and control characters. */
  function Quote(s: string): string {
    "'" + s + "'"
  }

  function ScalarRepr(a: Scalar): string {
    match a
    case Str(s) => Quote(s)
    case _ => ScalarText(a)
  }

  /** `str()` of a scalar. */
  function ScalarText(a: Scalar): string {
    match a
    case Null => "None"
    case Bool(b) => if b then "True" else "False"
    case Num(n) => IntToString(n)
    case Str(s) => s
  }

  function ListRepr(xs: seq<string>): string {
    "[" + Join(seq(|xs|, i requires 0 <= i < |xs| => Quote(xs[i])), ", ") + "]"
  }

  function CatValRepr(c: CatVal): string {
    match c
    case Items(xs) => ListRepr(xs)
    case Leaf(a) => ScalarRepr(a)
  }

  /** `str()` of a field value, as an f-string renders it. */
  function ValueText(v: Value): string {
    match v
    case Atom(a) => ScalarText(a)
    case Strs(xs) => ListRepr(xs)
    case Cats(cs) =>
      "{" + Join(seq(|cs|, i requires 0 <= i < |cs| => Quote(cs[i].0) + ": " + CatValRepr(cs[i].1)), ", ") + "}"
  }

  /** What one category contributes to the flattened tech stack. */
  function CatItems(c: CatVal): seq<string> {
    match c
    case Items(xs) => xs
    case Leaf(a) => [ScalarText(a)]
  }

  /**
   The technologies of a categorised tech stack, in category order: list entries
   spliced in, any other value passed through `str()`.
   */
  function FlattenTech(cats: seq<(string, CatVal)>): (r: seq<string>)
    ensures forall i, x :: 0 <= i < |cats| && x in CatItems(cats[i].1) ==> x in r
    ensures forall x :: x in r ==> exists i :: 0 <= i < |cats| && x in CatItems(cats[i].1)
    ensures cats == [] ==> r == []
    ensures |cats| == 1 ==> r == CatItems(cats[0].1)
  {
    if cats == [] then []
    else
      var rest := FlattenTech(cats[1..]);
      assert forall i :: 1 <= i < |cats| ==> cats[i] == cats[1..][i - 1];
      CatItems(cats[0].1) + rest
  }

  /** Flattening works category by category, so it keeps the order of the categories. */
  lemma {:induction false} FlattenTechAppend(a: seq<(string, CatVal)>, b: seq<(string, CatVal)>)
    ensures FlattenTech(a + b) == FlattenTech(a) + FlattenTech(b)
    decreases |a|
  {
    if a == [] {
      assert a + b == b;
    } else {
      assert (a + b)[0] == a[0];
      assert (a + b)[1..] == a[1..] + b;
      FlattenTechAppend(a[1..], b);
    }
  }

  /** Desired positions as displayed: a list joined with ", ", anything else through `str()`. */
  function PositionsText(v: Value): string {
    if v.Strs? then Join(v.strs, ", ") else ValueText(v)
  }

  /** The tech stack as displayed: a mapping flattened and joined with ", ", anything else through `str()`. */
  function TechText(v: Value): string {
    if v.Cats? then Join(FlattenTech(v.cats), ", ") else ValueText(v)
  }

  /** The text shown for a field in the profile rendering and in the report table. */
  function DisplayText(key: string, v: Value): string {
    if key == YearsOfExperience then ValueText(v) + " years"
    else if key == DesiredPositions then PositionsText(v)
    else if key == TechStack then TechText(v)
    else ValueText(v)
  }

  /** The keys among `keys` whose value in `p` is truthy, in the order of `keys`. */
  function TruthyKeys(p: Profile, keys: seq<string>): (r: seq<string>)
    ensures |r| <= |keys|
  {
    if keys == [] then []
    else (if Truthy(Get(p, keys[0])) then [keys[0]] else []) + TruthyKeys(p, keys[1..])
  }

  /** A key is kept exactly when it is one of `keys` and its value is truthy. */
  lemma {:induction false} TruthyKeysMember(p: Profile, keys: seq<string>, k: string)
    ensures k in TruthyKeys(p, keys) <==> k in keys && Truthy(Get(p, k))
  {
    if keys != [] {
      TruthyKeysMember(p, keys[1..], k);
      assert keys == [keys[0]] + keys[1..];
    }
  }

  /** Filtering a concatenation filters each part and keeps them in order. */
  lemma {:induction false} TruthyKeysAppend(p: Profile, a: seq<string>, b: seq<string>)
    ensures TruthyKeys(p, a + b) == TruthyKeys(p, a) + TruthyKeys(p, b)
    decreases |a|
  {
    if a == [] {
      assert a + b == b;
    } else {
      var h := if Truthy(Get(p, a[0])) then [a[0]] else [];
      assert (a + b)[0] == a[0];
      assert (a + b)[1..] == a[1..] + b;
      TruthyKeysAppend(p, a[1..], b);
      ConcatAssoc(h, TruthyKeys(p, a[1..]), TruthyKeys(p, b));
    }
  }

  /** `f` applied to each of `keys`, in order. */
  function MapKeys<T>(f: string -> T, keys: seq<string>): (r: seq<T>)
    ensures |r| == |keys|
    ensures forall i :: 0 <= i < |keys| ==> r[i] == f(keys[i])
  {
    if keys == [] then [] else [f(keys[0])] + MapKeys(f, keys[1..])
  }

  /** Reference rendering: one entry `f(k)` for each key `k` of `keys` whose value is truthy, in order. */
  function Picked<T>(p: Profile, keys: seq<string>, f: string -> T): seq<T> {
    MapKeys(f, TruthyKeys(p, keys))
  }

  /** What one `if info.get(key): out.append(f(key))` test contributes. */
  function IfTruthy<T>(p: Profile, key: string, f: string -> T): seq<T> {
    if Truthy(Get(p, key)) then [f(key)] else []
  }

  /** Rendering a key list is rendering its first key, if truthy, then the rest. */
  lemma PickedStep<T>(p: Profile, keys: seq<string>, f: string -> T)
    requires keys != []
    ensures Picked(p, keys, f) == IfTruthy(p, keys[0], f) + Picked(p, keys[1..], f)
  {
    var rest := TruthyKeys(p, keys[1..]);
    if Truthy(Get(p, keys[0])) {
      assert ([keys[0]] + rest)[1..] == rest;
    } else {
      assert [] + rest == rest;
    }
  }

  /** Five tests in a row render five keys in order. */
  lemma PickedChain5<T>(p: Profile, f: string -> T, a: string, b: string, c: string, d: string, e: string)
    ensures Picked(p, [a, b, c, d, e], f) ==
      IfTruthy(p, a, f) + (IfTruthy(p, b, f) + (IfTruthy(p, c, f) + (IfTruthy(p, d, f) + IfTruthy(p, e, f))))
  {
    var ks := [a, b, c, d, e];
    PickedStep(p, ks[4..], f);
    assert ks[4..][1..] == [];
    assert IfTruthy(p, e, f) + [] == IfTruthy(p, e, f);
    PickedStep(p, ks[3..], f);
    assert ks[3..][1..] == ks[4..];
    PickedStep(p, ks[2..], f);
    assert ks[2..][1..] == ks[3..];
    PickedStep(p, ks[1..], f);
    assert ks[1..][1..] == ks[2..];
    PickedStep(p, ks, f);
  }

  /** Seven tests in a row render seven keys in order. */
  lemma PickedChain7<T>(p: Profile, f: string -> T, a: string, b: string, c: string, d: string, e: string,
                        g: string, h: string)
    ensures Picked(p, [a, b, c, d, e, g, h], f) ==
      IfTruthy(p, a, f) + (IfTruthy(p, b, f) + (IfTruthy(p, c, f) + (IfTruthy(p, d, f)
      + (IfTruthy(p, e, f) + (IfTruthy(p, g, f) + IfTruthy(p, h, f))))))
  {
    var ks := [a, b, c, d, e, g, h];
    PickedChain5(p, f, c, d, e, g, h);
    assert ks[2..] == [c, d, e, g, h];
    PickedStep(p, ks[1..], f);
    assert ks[1..][1..] == ks[2..];
    PickedStep(p, ks, f);
  }

  /** The entry of every truthy key among `keys` is in the rendering. */
  lemma PickedHas<T>(p: Profile, keys: seq<string>, f: string -> T, k: string)
    requires k in keys && Truthy(Get(p, k))
    ensures f(k) in Picked(p, keys, f)
  {
    TruthyKeysMember(p, keys, k);
    var ks := TruthyKeys(p, keys);
    var j :| 0 <= j < |ks| && ks[j] == k;
    assert Picked(p, keys, f)[j] == f(k);
  }

  /** With entries that tell keys apart, a falsy key contributes no entry. */
  lemma PickedLacks<T>(p: Profile, keys: seq<string>, f: string -> T, k: string)
    requires !Truthy(Get(p, k))
    requires forall a :: a in keys && f(a) == f(k) ==> a == k
    ensures f(k) !in Picked(p, keys, f)
  {
    var ks := TruthyKeys(p, keys);
    if f(k) in Picked(p, keys, f) {
      var j :| 0 <= j < |ks| && Picked(p, keys, f)[j] == f(k);
      TruthyKeysMember(p, keys, ks[j]);
    }
  }
}
