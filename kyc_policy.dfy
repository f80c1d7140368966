/** The KYC gating policy of blockchain/kyc/policy.js: an enabled flag, a region,
    the set of actions that need a passed check, and an injected checker. */
module Kyc {
  import opened Json
  import opened Wrappers

  /** The region used when none (or a falsy one) is configured. */
  const DefaultRegion: JsValue := Str("GLOBAL")

  /** The message of a refused action. */
  const DeniedMessage: string := "KYC/AML 未通过，无法执行该操作"

  /** The result of `assert`: `{ ok: true }` or `{ ok: false, message }`. */
  datatype Decision = Allowed | Denied(message: string)

  /** The injected checker: it receives the request object and answers with a value
      whose truthiness decides. The default one answers `true`. */
  type Checker = map<string, JsValue> -> JsValue

  /** The default checker, `async () => true`. */
  function AlwaysPass(req: map<string, JsValue>): JsValue {
    Bool(true)
  }

  /** `{ action, region, ...context }`: context keys are spread last, so they win. */
  function CheckRequest(action: string, region: JsValue, context: map<string, JsValue>): (req: map<string, JsValue>)
    ensures "action" in req && "region" in req
    ensures forall k :: k in context ==> k in req && req[k] == context[k]
    ensures forall k :: k in req ==> k in context || k == "action" || k == "region"
  {
    map["action" := Str(action), "region" := region] + context
  }

  /** The request carries `action` and `region` unless `context` overrides them, and every context key as given. */
  lemma CheckRequestContextWins(action: string, region: JsValue, context: map<string, JsValue>)
    ensures var req := CheckRequest(action, region, context);
      && req.Keys == context.Keys + {"action", "region"}
      && req["action"] == (if "action" in context then context["action"] else Str(action))
      && req["region"] == (if "region" in context then context["region"] else region)
      && forall k :: k in context ==> req[k] == context[k]
  {
  }

  class KycPolicy {
    var enabled: bool
    var region: JsValue
    var enforcedActions: set<string>
    var checker: Checker

    /** `new KYCPolicy({ enabled, region, enforcedActions, checker })`; an absent option is `Undefined`, `[]` or `None`. */
    constructor (enabledOption: JsValue, regionOption: JsValue, actions: seq<string>, checkerOption: Option<Checker>)
      ensures enabled == Truthy(enabledOption)
      ensures region == if Truthy(regionOption) then regionOption else DefaultRegion
      ensures forall a :: a in enforcedActions <==> a in actions
      ensures checkerOption.Some? ==> checker == checkerOption.value
      ensures checkerOption.None? ==> forall req :: checker(req) == Bool(true)
    {
      enabled := Truthy(enabledOption);
      region := if Truthy(regionOption) then regionOption else DefaultRegion;
      enforcedActions := set a | a in actions;
      if checkerOption.Some? {
        checker := checkerOption.value;
      } else {
        checker := AlwaysPass;
      }
    }

    /** `setEnabled(v)` stores `!!v`. */
    method SetEnabled(v: JsValue)
      modifies this
      ensures enabled == Truthy(v)
      ensures region == old(region) && enforcedActions == old(enforcedActions) && checker == old(checker)
    {
      enabled := Truthy(v);
    }

    /** `setRegion(r)` stores `r` as given. */
    method SetRegion(r: JsValue)
      modifies this
      ensures region == r
      ensures enabled == old(enabled) && enforcedActions == old(enforcedActions) && checker == old(checker)
    {
      region := r;
    }

    /** `enforceFor(action)`: `action` becomes enforced; no other action changes. */
    method EnforceFor(action: string)
      modifies this
      ensures action in enforcedActions
      ensures forall a :: a != action ==> (a in enforcedActions <==> a in old(enforcedActions))
      ensures enabled == old(enabled) && region == old(region) && checker == old(checker)
    {
      enforcedActions := enforcedActions + {action};
    }

    /** `remove(action)`: `action` is no longer enforced; no other action changes. */
    method Remove(action: string)
      modifies this
      ensures action !in enforcedActions
      ensures forall a :: a != action ==> (a in enforcedActions <==> a in old(enforcedActions))
      ensures enabled == old(enabled) && region == old(region) && checker == old(checker)
    {
      enforcedActions := enforcedActions - {action};
    }

    /** The request `assert(action, context)` hands to the checker, or `None` when it does not consult it. */
    function Consultation(action: string, context: map<string, JsValue>): (req: Option<map<string, JsValue>>)
      reads this
      ensures req.None? <==> !enabled || action !in enforcedActions
      ensures req.Some? ==> req.value == CheckRequest(action, region, context)
    {
      if !enabled then None
      else if action !in enforcedActions then None
      else Some(CheckRequest(action, region, context))
    }

    /** `assert(action, context)`. */
    function Assert(action: string, context: map<string, JsValue>): (d: Decision)
      reads this
      ensures !enabled ==> d == Allowed
      ensures action !in enforcedActions ==> d == Allowed
      ensures enabled && action in enforcedActions ==>
        (d == Allowed <==> Truthy(checker(CheckRequest(action, region, context))))
      ensures d.Denied? ==> d.message == DeniedMessage
    {
      match Consultation(action, context)
      case None => Allowed
      case Some(req) => if Truthy(checker(req)) then Allowed else Denied(DeniedMessage)
    }
  }
}
