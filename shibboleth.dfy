/**
 * The Shibboleth authentication adapter (`Auth/Adapter/Shibboleth.php`).
 * A Shibboleth daemon in front of the web server puts the attributes of an
 * authenticated session into the server environment under keys containing
 * `HTTP_SHIB`; the adapter authenticates when the configured identity field
 * is present there, and builds the identity from those attributes, renamed
 * through an optional key map.
 *
 * The server environment (`$_SERVER`) is a parameter: the pairs in their
 * order.
 */
module ShibbolethAuth {
  import opened Wrappers

  /** `Zend_Auth_Result::SUCCESS`. */
  const SUCCESS := 1
  /** `Zend_Auth_Result::FAILURE_IDENTITY_NOT_FOUND`. */
  const FAILURE_IDENTITY_NOT_FOUND := -1

  const NO_SESSION := "There was no active shibboleth session to authenticate against."
  const NO_IDENTITY_FIELD := "No identity field set. Use setIdentityField()"

  /** What marks a key of the environment as a Shibboleth attribute. */
  const SHIB_MARK := "HTTP_SHIB"

  /** The server environment, pair by pair in its order. */
  type Env = seq<(string, string)>

  /** A key-map argument: an array of environment names to identity names, or a value of another type. */
  datatype KeyMapArg = ArrayArg(m: map<string, string>) | NotArray(typeName: string)

  /** A `Zend_Auth_Result`. */
  datatype AuthResult = AuthResult(code: int, identity: map<string, string>, messages: seq<string>)

  /** `needle` occurs in `hay` starting at position `j`. */
  predicate OccursAt(hay: string, needle: string, j: nat) {
    j + |needle| <= |hay| && hay[j..j + |needle|] == needle
  }

  /** An occurrence past the first character of `hay` is an occurrence in `hay[1..]`, one position earlier. */
  lemma OccursShift(hay: string, needle: string)
    requires hay != []
    ensures forall j: nat :: j >= 1 ==> (OccursAt(hay, needle, j) <==> OccursAt(hay[1..], needle, j - 1))
  {
    forall j: nat | j >= 1
      ensures OccursAt(hay, needle, j) <==> OccursAt(hay[1..], needle, j - 1)
    {
      if j + |needle| <= |hay| {
        assert hay[j..j + |needle|] == hay[1..][j - 1..j - 1 + |needle|];
      }
    }
  }

  /** `strpos`: the first position at which `needle` occurs in `hay`, if any. */
  function StrPos(hay: string, needle: string): (r: Option<nat>)
    ensures r.Some? ==> OccursAt(hay, needle, r.value)
    ensures r.Some? ==> forall j: nat :: j < r.value ==> !OccursAt(hay, needle, j)
    ensures r.None? ==> forall j: nat :: !OccursAt(hay, needle, j)
    decreases |hay|
  {
    if |hay| < |needle| then None
    else if hay[..|needle|] == needle then
      assert OccursAt(hay, needle, 0) by { assert hay[0..|needle|] == hay[..|needle|]; }
      Some(0)
    else
      assert !OccursAt(hay, needle, 0) by { assert hay[0..|needle|] == hay[..|needle|]; }
      OccursShift(hay, needle);
      match StrPos(hay[1..], needle)
      case None => None
      case Some(i) => Some(i + 1)
  }

  /** The key of a Shibboleth attribute. */
  predicate IsShibKey(key: string) {
    StrPos(key, SHIB_MARK).Some?
  }

  /**
   * The identity name under which the environment entry `key` is copied:
   * none for a key that is not a Shibboleth attribute; with a key map, its
   * mapped name, and none when the map does not list it; without one, the
   * key itself.
   */
  function Target(key: string, keyMap: Option<map<string, string>>): (r: Option<string>)
    ensures r.Some? ==> IsShibKey(key)
    ensures keyMap.None? ==> (r.Some? <==> IsShibKey(key)) && (r.Some? ==> r.value == key)
    ensures keyMap.Some? ==> (r.Some? <==> IsShibKey(key) && key in keyMap.value)
                             && (r.Some? ==> r.value == keyMap.value[key])
  {
    if !IsShibKey(key) then None
    else if keyMap.Some? then (if key in keyMap.value then Some(keyMap.value[key]) else None)
    else Some(key)
  }

  /** The identity after the entries of `env`, one after another, were copied into `identity`. */
  function Absorbed(identity: map<string, string>, env: Env, keyMap: Option<map<string, string>>): map<string, string> {
    if env == [] then identity
    else
      var before := Absorbed(identity, env[..|env| - 1], keyMap);
      var (key, value) := env[|env| - 1];
      match Target(key, keyMap)
      case None => before
      case Some(name) => before[name := value]
  }

  /** Some entry of `env` is copied under `name`. */
  predicate Copied(env: Env, keyMap: Option<map<string, string>>, name: string) {
    exists i :: 0 <= i < |env| && Target(env[i].0, keyMap) == Some(name)
  }

  /**
   * What the identity holds after copying: a name is there when it was
   * there before or some entry is copied under it; it keeps its old value
   * when no entry is copied under it, and otherwise holds the value of the
   * last entry copied under it.
   */
  lemma {:induction false} AbsorbedContents(identity: map<string, string>, env: Env, keyMap: Option<map<string, string>>, name: string)
    ensures name in Absorbed(identity, env, keyMap) <==> name in identity || Copied(env, keyMap, name)
    ensures !Copied(env, keyMap, name) && name in identity ==> Absorbed(identity, env, keyMap)[name] == identity[name]
    ensures forall i :: 0 <= i < |env| && Target(env[i].0, keyMap) == Some(name)
                        && (forall j :: i < j < |env| ==> Target(env[j].0, keyMap) != Some(name))
                        ==> Absorbed(identity, env, keyMap)[name] == env[i].1
  {
    if env != [] {
      var front, last := env[..|env| - 1], env[|env| - 1];
      AbsorbedContents(identity, front, keyMap, name);
      assert forall i :: 0 <= i < |front| ==> front[i] == env[i];
      if Target(last.0, keyMap) != Some(name) {
        if Copied(env, keyMap, name) {
          var i :| 0 <= i < |env| && Target(env[i].0, keyMap) == Some(name);
          assert i < |front|;
        }
      }
    }
  }

  /** Copying never removes a name nor changes one that no entry is copied under: the identity only accumulates. */
  lemma AbsorbedKeeps(identity: map<string, string>, env: Env, keyMap: Option<map<string, string>>)
    ensures identity.Keys <= Absorbed(identity, env, keyMap).Keys
    ensures forall name :: name in identity && !Copied(env, keyMap, name) ==> Absorbed(identity, env, keyMap)[name] == identity[name]
  {
    forall name | name in identity
      ensures name in Absorbed(identity, env, keyMap)
      ensures !Copied(env, keyMap, name) ==> Absorbed(identity, env, keyMap)[name] == identity[name]
    {
      AbsorbedContents(identity, env, keyMap, name);
    }
  }

  /** `isset($_SERVER[field])`. */
  predicate InEnv(env: Env, field: string) {
    exists i :: 0 <= i < |env| && env[i].0 == field
  }

  /** The adapter object. */
  class Adapter {
    var identityField: Option<string>
    var keyMap: Option<map<string, string>>
    var hasKeyMap: bool
    var identity: map<string, string>

    /** The flag `hasKeyMap` says whether a key map is in place. */
    predicate Valid()
      reads this
    {
      hasKeyMap <==> keyMap.Some?
    }

    /** An identity field only when one is given; a key map only when an array is given, anything else ignored. */
    constructor (field: Option<string>, keyMapArg: KeyMapArg)
      ensures Valid()
      ensures identityField == field
      ensures keyMap == if keyMapArg.ArrayArg? then Some(keyMapArg.m) else None
      ensures identity == map[]
    {
      identityField := field;
      keyMap := None;
      hasKeyMap := false;
      identity := map[];
      if keyMapArg.ArrayArg? {
        keyMap := Some(keyMapArg.m);
        hasKeyMap := true;
      }
    }

    /** `hasKeyMap()`. */
    function HasKeyMap(): (b: bool)
      reads this
      requires Valid()
      ensures b <==> keyMap.Some?
    {
      hasKeyMap
    }

    /** `setIdentityField`: the field is replaced by the argument, and null clears it. */
    method SetIdentityField(field: Option<string>)
      modifies this
      ensures identityField == field
      ensures keyMap == old(keyMap) && hasKeyMap == old(hasKeyMap) && identity == old(identity)
    {
      identityField := field;
    }

    /** `setKeyMap`: an array becomes the key map; anything else throws and changes nothing. */
    method SetKeyMap(arg: KeyMapArg) returns (r: Result<(), string>)
      requires Valid()
      modifies this
      ensures Valid()
      ensures arg.ArrayArg? ==> r.Ok? && keyMap == Some(arg.m) && HasKeyMap()
      ensures arg.NotArray? ==> r == Err("An array of key/value pairs has to be provided. \"" + arg.typeName + "\" given.")
                                && keyMap == old(keyMap) && hasKeyMap == old(hasKeyMap)
      ensures identityField == old(identityField) && identity == old(identity)
    {
      if arg.ArrayArg? {
        keyMap := Some(arg.m);
        hasKeyMap := true;
        return Ok(());
      }
      return Err("An array of key/value pairs has to be provided. \"" + arg.typeName + "\" given.");
    }

    /** `clearKeyMap`. */
    method ClearKeyMap()
      modifies this
      ensures Valid() && !HasKeyMap() && keyMap == None
      ensures identityField == old(identityField) && identity == old(identity)
    {
      keyMap := None;
      hasKeyMap := false;
    }

    /** `_setupIdentity`: copies every Shibboleth attribute of the environment into the identity, through the key map when one is in place. */
    method SetupIdentity(env: Env)
      requires Valid()
      modifies this
      ensures identity == Absorbed(old(identity), env, keyMap)
      ensures identityField == old(identityField) && keyMap == old(keyMap) && hasKeyMap == old(hasKeyMap)
    {
      ghost var start := identity;
      for i := 0 to |env|
        invariant identity == Absorbed(start, env[..i], keyMap)
        invariant identityField == old(identityField) && keyMap == old(keyMap) && hasKeyMap == old(hasKeyMap)
      {
        assert env[..i + 1][..i] == env[..i];
        var (key, value) := env[i];
        if StrPos(key, SHIB_MARK).Some? {
          if HasKeyMap() {
            if key in keyMap.value {
              identity := identity[keyMap.value[key] := value];
            }
          } else {
            identity := identity[key := value];
          }
        }
      }
      assert env[..|env|] == env;
    }

    /**
     * `authenticate`: without an identity field it throws; with the field
     * present in the environment it copies the attributes and succeeds with
     * the identity; otherwise it fails with the identity as it stands.
     */
    method Authenticate(env: Env) returns (r: Result<AuthResult, string>)
      requires Valid()
      modifies this
      ensures Valid()
      ensures identityField.None? ==> r == Err(NO_IDENTITY_FIELD) && identity == old(identity)
      ensures identityField.Some? && InEnv(env, identityField.value) ==>
                identity == Absorbed(old(identity), env, keyMap) && r == Ok(AuthResult(SUCCESS, identity, []))
      ensures identityField.Some? && !InEnv(env, identityField.value) ==>
                identity == old(identity) && r == Ok(AuthResult(FAILURE_IDENTITY_NOT_FOUND, identity, [NO_SESSION]))
      ensures identityField == old(identityField) && keyMap == old(keyMap) && hasKeyMap == old(hasKeyMap)
    {
      if identityField.None? {
        return Err(NO_IDENTITY_FIELD);
      }
      var present := false;
      for i := 0 to |env|
        invariant present <==> exists j :: 0 <= j < i && env[j].0 == identityField.value
      {
        if env[i].0 == identityField.value {
          present := true;
        }
      }
      if present {
        SetupIdentity(env);
        return Ok(AuthResult(SUCCESS, identity, []));
      }
      return Ok(AuthResult(FAILURE_IDENTITY_NOT_FOUND, identity, [NO_SESSION]));
    }
  }

  /** A repeated authentication keeps every name a first one put into the identity. */
  lemma IdentityAccumulates(first: map<string, string>, env1: Env, env2: Env, keyMap: Option<map<string, string>>)
    ensures Absorbed(first, env1, keyMap).Keys <= Absorbed(Absorbed(first, env1, keyMap), env2, keyMap).Keys
    ensures first.Keys <= Absorbed(Absorbed(first, env1, keyMap), env2, keyMap).Keys
  {
    AbsorbedKeeps(first, env1, keyMap);
    AbsorbedKeeps(Absorbed(first, env1, keyMap), env2, keyMap);
  }
}
