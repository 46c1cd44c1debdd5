/**
 * An in-memory stand-in for the registry reader the locator uses
 * (`forensic_rs`'s `RegistryReader`, implemented on a live system by
 * `LiveRegistryReader`): a fixed map from full key paths to key contents,
 * and the handles the reader has handed out and not yet closed.
 */
module Registry {
  import opened Wrappers
  import opened Errors

  /** The value kinds a registry value can hold (`forensic_rs::traits::registry::RegValue`). */
  datatype RegValue =
    | SZ(text: string)
    | ExpandSZ(expandable: string)
    | MultiSZ(texts: seq<string>)
    | DWord(dword: nat)
    | QWord(qword: nat)
    | Binary(bytes: seq<nat>)

  /**
   * One key: the names of its subkeys (`None` when enumerating them fails,
   * for instance because access is denied) and its named values.
   */
  datatype KeyData = KeyData(subkeys: Option<seq<string>>, values: map<string, RegValue>)

  /** A key handle: one of the predefined hives, or a handle the reader opened. */
  datatype HiveKey = HkeyLocalMachine | Hkey(handle: nat)

  const HklmPath: string := "HKEY_LOCAL_MACHINE"

  /** The full path of subkey `sub` under the key at `path`. */
  function Child(path: string, sub: string): string
  {
    path + "\\" + sub
  }

  class Reader {
    /** The registry contents, by full key path. */
    const keys: map<string, KeyData>
    /** What every failing call returns; its rendering is foreign and kept opaque. */
    const failure: ForensicError
    /** The handles opened and not yet closed, with the path each one names. */
    var open: map<nat, string>
    /** The handle the next successful open hands out. */
    var next: nat
    /** Every handle closed so far, in closing order. */
    ghost var closed: seq<nat>

    ghost predicate Valid()
      reads this
    {
      forall h :: h in open ==> h < next
    }

    constructor (keys: map<string, KeyData>, failure: ForensicError)
      ensures this.keys == keys && this.failure == failure
      ensures open == map[] && next == 0 && closed == []
      ensures Valid()
    {
      this.keys := keys;
      this.failure := failure;
      open := map[];
      next := 0;
      closed := [];
    }

    /** The path a handle names, if it is a hive or is open. */
    function PathOf(key: HiveKey): Option<string>
      reads this
    {
      match key
      case HkeyLocalMachine => Some(HklmPath)
      case Hkey(h) => if h in open then Some(open[h]) else None
    }

    /** `open_key(parent, sub)`: a fresh handle for the subkey, or the failure when it does not exist. */
    method OpenKey(parent: HiveKey, sub: string) returns (r: Result<HiveKey, ForensicError>)
      requires Valid()
      modifies this
      ensures Valid() && closed == old(closed)
      ensures var path := old(PathOf(parent));
              if path.Some? && Child(path.value, sub) in keys then
                r == Ok(Hkey(old(next))) && next == old(next) + 1
                && open == old(open)[old(next) := Child(path.value, sub)]
              else
                r == Err(failure) && next == old(next) && open == old(open)
    {
      var path := PathOf(parent);
      if path.Some? && Child(path.value, sub) in keys {
        r := Ok(Hkey(next));
        open := open[next := Child(path.value, sub)];
        next := next + 1;
      } else {
        r := Err(failure);
      }
    }

    /** `close_key(key)`: an open handle is released and logged; anything else is left as it is. */
    method CloseKey(key: HiveKey)
      requires Valid()
      modifies this
      ensures Valid() && next == old(next)
      ensures if key.Hkey? && key.handle in old(open) then
                open == old(open) - {key.handle} && closed == old(closed) + [key.handle]
              else
                open == old(open) && closed == old(closed)
    {
      if key.Hkey? && key.handle in open {
        open := open - {key.handle};
        closed := closed + [key.handle];
      }
    }

    /** `enumerate_keys(key)`: the subkey names of the key the handle names. */
    method EnumerateKeys(key: HiveKey) returns (r: Result<seq<string>, ForensicError>)
      ensures r.Ok? <==> PathOf(key).Some? && PathOf(key).value in keys && keys[PathOf(key).value].subkeys.Some?
      ensures r.Ok? ==> r.value == keys[PathOf(key).value].subkeys.value
      ensures r.Err? ==> r.error == failure
    {
      var path := PathOf(key);
      if path.Some? && path.value in keys && keys[path.value].subkeys.Some? {
        r := Ok(keys[path.value].subkeys.value);
      } else {
        r := Err(failure);
      }
    }

    /** `read_value(key, name)`: the named value of the key the handle names. */
    method ReadValue(key: HiveKey, name: string) returns (r: Result<RegValue, ForensicError>)
      ensures r.Ok? <==> PathOf(key).Some? && PathOf(key).value in keys && name in keys[PathOf(key).value].values
      ensures r.Ok? ==> r.value == keys[PathOf(key).value].values[name]
      ensures r.Err? ==> r.error == failure
    {
      var path := PathOf(key);
      if path.Some? && path.value in keys && name in keys[path.value].values {
        r := Ok(keys[path.value].values[name]);
      } else {
        r := Err(failure);
      }
    }
  }
}
