/**
 * The register bank shared by the two duet interpreters and the coprocessor
 * (the `Registers` class, identical in the three files): a map from names to
 * integers that reads 0 for a name never written, and a `get` that treats an
 * integer token as a literal and anything else as a register name.
 */
module RegisterBank {
  import opened PyLib

  type Store = map<string, int>

  /** `store[key]` on a `defaultdict(int)`: a register never written reads 0. */
  function Lookup(store: Store, key: string): int {
    if key in store then store[key] else 0
  }

  /** `Registers.get(token)`: the integer the token spells, else the register it names. */
  function Resolve(store: Store, token: string): int {
    match ParseInt(token)
    case Some(n) => n
    case None => Lookup(store, token)
  }

  /** A Python value handed to `add`/`set`: an integer or a string. */
  datatype Value = Int(i: int) | Text(s: string)

  /** `int(val)`. */
  function Coerce(v: Value): Option<int> {
    match v
    case Int(i) => Some(i)
    case Text(s) => ParseInt(s)
  }

  /** A literal token resolves to itself whatever the registers hold. */
  lemma ResolveLiteral(store: Store, n: int)
    ensures Resolve(store, IntToString(n)) == n
  {
    ParseIntToString(n);
  }

  /** A register never written resolves to 0. */
  lemma ResolveUnwritten(store: Store, name: string)
    requires |name| > 0 && 'a' <= name[0] <= 'z'
    requires name !in store
    ensures Resolve(store, name) == 0
  {
    LetterIsNotInt(name);
  }

  /**
   * Writing register `key` changes what `key` resolves to, when `key` is a name,
   * and nothing else: other names and all literals resolve as before.
   */
  lemma ResolveAfterWrite(store: Store, key: string, v: int, token: string)
    ensures ParseInt(token).None? && token == key ==> Resolve(store[key := v], token) == v
    ensures token != key || ParseInt(token).Some? ==>
              Resolve(store[key := v], token) == Resolve(store, token)
  {
  }

  class Registers {
    var store: Store

    /** A fresh bank with no register written. */
    constructor ()
      ensures store == map[]
    {
      store := map[];
    }

    /** `get`: literal-or-register resolution against the current store. */
    function Get(key: string): (v: int)
      reads this
      ensures ParseInt(key).Some? ==> v == ParseInt(key).value
      ensures ParseInt(key).None? ==> v == Lookup(store, key)
    {
      Resolve(store, key)
    }

    /** `set`: store `int(val)` under `key`, or raise ValueError and change nothing. */
    method Set(key: string, val: Value) returns (r: Outcome)
      modifies this
      ensures Coerce(val).None? ==> r == Fail(ValueError) && store == old(store)
      ensures Coerce(val).Some? ==> r == Pass && store == old(store)[key := Coerce(val).value]
    {
      match Coerce(val)
      case Some(n) =>
        store := store[key := n];
        r := Pass;
      case None =>
        r := Fail(ValueError);
    }

    /** `add`: the same as `set`; the source keeps both names for readability. */
    method Add(key: string, val: Value := Int(0)) returns (r: Outcome)
      modifies this
      ensures Coerce(val).None? ==> r == Fail(ValueError) && store == old(store)
      ensures Coerce(val).Some? ==> r == Pass && store == old(store)[key := Coerce(val).value]
    {
      r := Set(key, val);
    }
  }
}
