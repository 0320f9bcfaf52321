/**
 * The ACL action helper (`Controller/Action/Helper/Acl.php`): before an
 * action is dispatched it asks the access-control list whether the current
 * user's role may run the requested action of the current controller, and
 * when it may not, either throws or rewrites the request to a redirect
 * target (a login form for anonymous users, an error page for others).
 *
 * The access-control list itself (`Zend_Acl`) is outside this model: it is
 * kept as the resources and rules the helper gives it, and its decision
 * `isAllowed` is a parameter. The identity stored by `Zend_Auth` is a
 * parameter too.
 */
module AclHelper {
  import opened Wrappers

  const DEFAULT_ROLE := "guest"

  const NO_ACL := "No Acl object provided."
  const NOT_AN_ACL := "Acl object must extend Zend_Acl."
  const NO_ROLE := "Unable to determine role."
  const ACCESS_DENIED := "Access denied to requested action"
  const NO_DESTINATION := "Exceptions disabled but no redirect destinations set."
  const NO_ACTION_CONTROLLER := "Call to a member function getRequest() on a non-object"

  /**
   * A rule given to the list: allow or deny `roles` (every role when null)
   * the `actions` (every action when null) of `resource` (every resource
   * when null).
   */
  datatype Rule = Rule(allow: bool, roles: Option<seq<string>>, resource: Option<string>, actions: Option<seq<string>>)

  /** The access-control list as far as the helper changes it: its resource ids and the rules in the order given. */
  datatype Acl = Acl(resources: set<string>, rules: seq<Rule>)

  /** The id under which a resource named by a possibly null name is kept: a null array key is the empty string. */
  function ResourceId(name: Option<string>): string {
    if name.Some? then name.value else ""
  }

  /** `has` then `add`: the list with the resource `id`, added only when it is missing. */
  function WithResource(acl: Acl, id: string): (r: Acl)
    ensures r.resources == acl.resources + {id} && r.rules == acl.rules
    ensures id in acl.resources ==> r == acl
  {
    if id in acl.resources then acl else acl.(resources := acl.resources + {id})
  }

  /** Adding the controller's resource a second time changes nothing. */
  lemma WithResourceIdempotent(acl: Acl, id: string)
    ensures WithResource(WithResource(acl, id), id) == WithResource(acl, id)
  {
  }

  /** A value in the options array. */
  datatype OptionValue = AclObject(acl: Acl) | ArrayValue(entries: map<string, string>) | Scalar(truthy: bool) | Null

  type Options = map<string, OptionValue>

  /** `isset($options[key])`. */
  predicate IsSet(options: Options, key: string) {
    key in options && !options[key].Null?
  }

  /** How PHP reads an option value as a boolean. */
  predicate Truthy(v: OptionValue) {
    match v
    case AclObject(_) => true
    case ArrayValue(entries) => entries != map[]
    case Scalar(b) => b
    case Null => false
  }

  /** What the constructor keeps from its options. */
  datatype Settings = Settings(acl: Acl, throwIfDenied: bool, noauth: Option<map<string, string>>, noacl: Option<map<string, string>>)

  /** An array option, when set. */
  function ArrayOption(options: Options, key: string): (r: Option<map<string, string>>)
    ensures r.Some? <==> IsSet(options, key) && options[key].ArrayValue?
    ensures r.Some? ==> r.value == options[key].entries
  {
    if IsSet(options, key) && options[key].ArrayValue? then Some(options[key].entries) else None
  }

  /**
   * The constructor as written: the `noacl` array is stored as the `noauth`
   * target (overriding a `noauth` option), and the `noacl` target stays null.
   */
  function SettingsAsWritten(options: Options): (r: Result<Settings, string>)
    ensures r.Err? <==> !IsSet(options, "acl") || !options["acl"].AclObject?
    ensures r.Ok? ==> r.value.noacl.None?
    ensures r.Ok? && ArrayOption(options, "noacl").Some? ==> r.value.noauth == ArrayOption(options, "noacl")
  {
    if !IsSet(options, "acl") then Err(NO_ACL)
    else if !options["acl"].AclObject? then Err(NOT_AN_ACL)
    else
      var throwIfDenied := if IsSet(options, "throwIfDenied") then Truthy(options["throwIfDenied"]) else true;
      var noauth := ArrayOption(options, "noauth");
      var noauth := if ArrayOption(options, "noacl").Some? then ArrayOption(options, "noacl") else noauth;
      Ok(Settings(options["acl"].acl, throwIfDenied, noauth, None))
  }

  /**
   * The constructor as its documentation describes it: the list is
   * mandatory, `throwIfDenied` defaults to true, and each of the two
   * redirect targets is taken from its own option when that is an array.
   */
  function ConfiguredSettings(options: Options): (r: Result<Settings, string>)
    ensures !IsSet(options, "acl") ==> r == Err(NO_ACL)
    ensures IsSet(options, "acl") && !options["acl"].AclObject? ==> r == Err(NOT_AN_ACL)
    ensures r.Ok? <==> IsSet(options, "acl") && options["acl"].AclObject?
    ensures r.Ok? ==> r.value.acl == options["acl"].acl
    ensures r.Ok? ==> (r.value.throwIfDenied <==> !IsSet(options, "throwIfDenied") || Truthy(options["throwIfDenied"]))
    ensures r.Ok? ==> r.value.noauth == ArrayOption(options, "noauth") && r.value.noacl == ArrayOption(options, "noacl")
  {
    if !IsSet(options, "acl") then Err(NO_ACL)
    else if !options["acl"].AclObject? then Err(NOT_AN_ACL)
    else
      var throwIfDenied := if IsSet(options, "throwIfDenied") then Truthy(options["throwIfDenied"]) else true;
      Ok(Settings(options["acl"].acl, throwIfDenied, ArrayOption(options, "noauth"), ArrayOption(options, "noacl")))
  }

  /** The two constructors differ exactly in where a `noacl` array goes. */
  lemma SettingsDiffer(options: Options)
    ensures SettingsAsWritten(options).Ok? <==> ConfiguredSettings(options).Ok?
    ensures SettingsAsWritten(options).Ok? ==>
      var w, c := SettingsAsWritten(options).value, ConfiguredSettings(options).value;
      && w.acl == c.acl && w.throwIfDenied == c.throwIfDenied
      && w.noacl.None?
      && w.noauth == (if c.noacl.Some? then c.noacl else c.noauth)
  {
  }

  /** With only an error page configured, the constructor as written files it as the login target. */
  lemma ErrorPageBecomesLoginTarget()
    ensures var options: Options := map["acl" := AclObject(Acl({}, [])), "noacl" := ArrayValue(map["action" := "error"])];
      && SettingsAsWritten(options) == Ok(Settings(Acl({}, []), true, Some(map["action" := "error"]), None))
      && ConfiguredSettings(options) == Ok(Settings(Acl({}, []), true, None, Some(map["action" := "error"])))
  {
    var options: Options := map["acl" := AclObject(Acl({}, [])), "noacl" := ArrayValue(map["action" := "error"])];
    assert !IsSet(options, "noauth") && !IsSet(options, "throwIfDenied");
  }

  /** The identity `Zend_Auth` holds: none, an array, an object, or a value of another type. */
  datatype Identity = NoIdentity | ArrayIdentity(entries: map<string, string>) | ObjectIdentity(props: map<string, string>) | OtherIdentity(typeName: string)

  /**
   * The role to check: the `role` entry of an array identity or the `role`
   * property of an object identity (null when missing), the default role
   * without an identity; any other identity throws.
   */
  function RoleOf(identity: Identity): (r: Result<Option<string>, string>)
    ensures r.Err? <==> identity.OtherIdentity?
    ensures r.Err? ==> r.error == NO_ROLE
    ensures identity.NoIdentity? ==> r == Ok(Some(DEFAULT_ROLE))
    ensures identity.ArrayIdentity? ==> r == Ok(if "role" in identity.entries then Some(identity.entries["role"]) else None)
    ensures identity.ObjectIdentity? ==> r == Ok(if "role" in identity.props then Some(identity.props["role"]) else None)
  {
    match identity
    case NoIdentity => Ok(Some(DEFAULT_ROLE))
    case ArrayIdentity(entries) => Ok(if "role" in entries then Some(entries["role"]) else None)
    case ObjectIdentity(props) => Ok(if "role" in props then Some(props["role"]) else None)
    case OtherIdentity(_) => Err(NO_ROLE)
  }

  /** What `preDispatch` does with a request: let it through, throw, or redirect it. */
  datatype Outcome = Proceed | Fail(message: string) | RedirectTo(target: map<string, string>)

  /** `null != $target`: PHP counts an empty array as equal to null. */
  predicate Configured(target: Option<map<string, string>>) {
    target.Some? && target.value != map[]
  }

  /**
   * The decision once the role is known and the list has answered: an
   * allowed request proceeds; a denied one throws when the helper throws,
   * and otherwise goes to the error page for a signed-in user when one is
   * configured, else to the login target, else throws.
   */
  function Decide(signedIn: bool, allowed: bool, s: Settings): (o: Outcome)
    ensures o.Proceed? <==> allowed
    ensures o.RedirectTo? ==> !allowed && !s.throwIfDenied
    ensures o.RedirectTo? ==> (Configured(s.noacl) && signedIn && o.target == s.noacl.value)
                              || (Configured(s.noauth) && o.target == s.noauth.value)
    ensures !allowed && s.throwIfDenied ==> o == Fail(ACCESS_DENIED)
    ensures !allowed && !s.throwIfDenied && !Configured(s.noauth) && !(signedIn && Configured(s.noacl)) ==> o == Fail(NO_DESTINATION)
  {
    if allowed then Proceed
    else if s.throwIfDenied then Fail(ACCESS_DENIED)
    else if signedIn && Configured(s.noacl) then RedirectTo(s.noacl.value)
    else if Configured(s.noauth) then RedirectTo(s.noauth.value)
    else Fail(NO_DESTINATION)
  }

  /** A signed-in user goes to the error page rather than the login form whenever one is configured. */
  lemma SignedInPrefersErrorPage(allowed: bool, s: Settings)
    requires !allowed && !s.throwIfDenied && Configured(s.noacl)
    ensures Decide(true, allowed, s) == RedirectTo(s.noacl.value)
    ensures Configured(s.noauth) ==> Decide(false, allowed, s) == RedirectTo(s.noauth.value)
  {
  }

  /** With the constructor as written, a denied user is never sent to the error page. */
  lemma NeverErrorPageAsWritten(options: Options, signedIn: bool, allowed: bool)
    requires SettingsAsWritten(options).Ok?
    ensures var s := SettingsAsWritten(options).value;
      Decide(signedIn, allowed, s).RedirectTo? ==> Decide(signedIn, allowed, s).target == s.noauth.value
  {
  }

  /** An entry of a redirect target; a missing one reads as null. */
  function Entry(target: map<string, string>, key: string): (r: Option<string>)
    ensures r.Some? <==> key in target
    ensures r.Some? ==> r.value == target[key]
  {
    if key in target then Some(target[key]) else None
  }

  /** A request object: its module, controller and action names, its parameters, and whether it counts as dispatched. */
  class Request {
    var moduleName: Option<string>
    var controller: Option<string>
    var action: Option<string>
    var params: map<string, Request>
    var dispatched: bool

    constructor (moduleName: Option<string>, controller: Option<string>, action: Option<string>, params: map<string, Request>, dispatched: bool)
      ensures this.moduleName == moduleName && this.controller == controller && this.action == action
      ensures this.params == params && this.dispatched == dispatched
    {
      this.moduleName, this.controller, this.action := moduleName, controller, action;
      this.params, this.dispatched := params, dispatched;
    }

    /**
     * The redirect as written: the request is rewritten in place, and the
     * parameter `oldRequest` is the same object, so it shows the new names
     * and not the ones originally requested.
     */
    method RedirectAsWritten(target: map<string, string>)
      modifies this
      ensures moduleName == Entry(target, "module") && controller == Entry(target, "controller") && action == Entry(target, "action")
      ensures params == old(params)["oldRequest" := this] && !dispatched
    {
      var oldRequest := this;
      moduleName := Entry(target, "module");
      controller := Entry(target, "controller");
      action := Entry(target, "action");
      params := params["oldRequest" := oldRequest];
      dispatched := false;
    }

    /** The redirect as intended: `oldRequest` is a copy of the request as it was before being rewritten. */
    method Redirect(target: map<string, string>)
      modifies this
      ensures moduleName == Entry(target, "module") && controller == Entry(target, "controller") && action == Entry(target, "action")
      ensures params.Keys == old(params).Keys + {"oldRequest"}
      ensures forall k :: k in params && k != "oldRequest" ==> params[k] == old(params)[k]
      ensures fresh(params["oldRequest"]) && !dispatched
      ensures params["oldRequest"].moduleName == old(moduleName) && params["oldRequest"].controller == old(controller)
      ensures params["oldRequest"].action == old(action)
    {
      var oldRequest := new Request(moduleName, controller, action, params, dispatched);
      moduleName := Entry(target, "module");
      controller := Entry(target, "controller");
      action := Entry(target, "action");
      params := params["oldRequest" := oldRequest];
      dispatched := false;
    }
  }

  /** A request for `edit`, denied and sent to a login form: as written, its `oldRequest` no longer says `edit`. */
  method OldRequestLostAsWritten() returns (requested: Option<string>, recorded: Option<string>)
    ensures requested == Some("edit") && recorded == Some("form")
  {
    var r := new Request(Some("default"), Some("page"), Some("edit"), map[], true);
    requested := r.action;
    r.RedirectAsWritten(map["module" := "default", "controller" := "login", "action" := "form"]);
    recorded := r.params["oldRequest"].action;
  }

  /** The same request with the intended redirect: `oldRequest` still says `edit`. */
  method OldRequestKept() returns (requested: Option<string>, recorded: Option<string>)
    ensures requested == Some("edit") && recorded == Some("edit")
  {
    var r := new Request(Some("default"), Some("page"), Some("edit"), map[], true);
    requested := r.action;
    r.Redirect(map["module" := "default", "controller" := "login", "action" := "form"]);
    recorded := r.params["oldRequest"].action;
  }

  /** The helper object. */
  class Helper {
    var acl: Acl
    const throwIfDenied: bool
    const noauth: Option<map<string, string>>
    const noacl: Option<map<string, string>>
    /** The request of the action controller the helper serves; null until `init`. */
    var request: Request?
    var controllerName: Option<string>

    constructor (s: Settings)
      ensures acl == s.acl && throwIfDenied == s.throwIfDenied && noauth == s.noauth && noacl == s.noacl
      ensures request == null && controllerName == None
    {
      acl := s.acl;
      throwIfDenied, noauth, noacl := s.throwIfDenied, s.noauth, s.noacl;
      request := null;
      controllerName := None;
    }

    function CurrentSettings(): Settings
      reads this
    {
      Settings(acl, throwIfDenied, noauth, noacl)
    }

    /** `init`: remember the action controller's request and make its controller a resource of the list. */
    method Init(req: Request)
      modifies this
      ensures request == req && controllerName == req.controller
      ensures acl == WithResource(old(acl), ResourceId(req.controller))
    {
      request := req;
      controllerName := req.controller;
      if ResourceId(controllerName) !in acl.resources {
        acl := acl.(resources := acl.resources + {ResourceId(controllerName)});
      }
    }

    /** `allow`: a rule allowing `roles` the `actions` of the current controller. */
    method Allow(roles: Option<seq<string>>, actions: Option<seq<string>>)
      modifies this
      ensures acl == old(acl).(rules := old(acl.rules) + [Rule(true, roles, controllerName, actions)])
      ensures request == old(request) && controllerName == old(controllerName)
    {
      acl := acl.(rules := acl.rules + [Rule(true, roles, controllerName, actions)]);
    }

    /** `deny`: a rule denying `roles` the `actions` of the current controller. */
    method Deny(roles: Option<seq<string>>, actions: Option<seq<string>>)
      modifies this
      ensures acl == old(acl).(rules := old(acl.rules) + [Rule(false, roles, controllerName, actions)])
      ensures request == old(request) && controllerName == old(controllerName)
    {
      acl := acl.(rules := acl.rules + [Rule(false, roles, controllerName, actions)]);
    }

    /**
     * `preDispatch`: choose the role, ask the list, and act on its answer.
     * Only a redirect changes the request; nothing else changes.
     */
    method PreDispatch(identity: Identity, isAllowed: (Acl, Option<string>, Option<string>, Option<string>) -> bool)
      returns (r: Result<(), string>)
      modifies request
      ensures RoleOf(identity).Err? ==> r == Err(NO_ROLE) && (request != null ==> unchanged(request))
      ensures RoleOf(identity).Ok? && request == null ==> r == Err(NO_ACTION_CONTROLLER)
      ensures RoleOf(identity).Ok? && request != null ==>
        var o := Decide(!identity.NoIdentity?, isAllowed(acl, RoleOf(identity).value, controllerName, old(request.action)), CurrentSettings());
        && (o.Proceed? ==> r.Ok? && unchanged(request))
        && (o.Fail? ==> r == Err(o.message) && unchanged(request))
        && (o.RedirectTo? ==>
              && r.Ok? && request.action == Entry(o.target, "action")
              && request.moduleName == Entry(o.target, "module") && request.controller == Entry(o.target, "controller")
              && !request.dispatched
              && request.params.Keys == old(request.params).Keys + {"oldRequest"}
              && (forall k :: k in request.params && k != "oldRequest" ==> request.params[k] == old(request.params)[k])
              && fresh(request.params["oldRequest"])
              && request.params["oldRequest"].moduleName == old(request.moduleName)
              && request.params["oldRequest"].controller == old(request.controller)
              && request.params["oldRequest"].action == old(request.action))
    {
      var role :- RoleOf(identity);
      if request == null {
        return Err(NO_ACTION_CONTROLLER);
      }
      if !isAllowed(acl, role, controllerName, request.action) {
        if throwIfDenied {
          return Err(ACCESS_DENIED);
        }
        var target;
        if !identity.NoIdentity? && Configured(noacl) {
          target := noacl.value;
        } else if Configured(noauth) {
          target := noauth.value;
        } else {
          return Err(NO_DESTINATION);
        }
        request.Redirect(target);
      }
      return Ok(());
    }
  }

  /** Builds a helper from its options; a missing or wrong `acl` option throws. */
  method NewHelper(options: Options) returns (r: Result<Helper, string>)
    ensures r.Err? <==> ConfiguredSettings(options).Err?
    ensures r.Err? ==> r.error == ConfiguredSettings(options).error
    ensures r.Ok? ==> fresh(r.value) && r.value.CurrentSettings() == ConfiguredSettings(options).value
    ensures r.Ok? ==> r.value.request == null
  {
    var s :- ConfiguredSettings(options);
    var h := new Helper(s);
    return Ok(h);
  }
}
