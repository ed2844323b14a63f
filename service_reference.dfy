// The mapping from the Service Reference JSON document of one service to the record of
// the dataset, shared by the JSON fetcher and the fetcher that adds dependent actions.
module ServiceReference {
  import opened Wrappers
  import opened Lists
  import Text
  import Consolidation

  // The decoded JSON document. Each field is `None` when its key is absent.

  datatype JsonAnnotations = JsonAnnotations(properties: Option<map<string, bool>>)

  datatype JsonResourceRef = JsonResourceRef(name: Option<string>)

  datatype JsonAction = JsonAction(
    name: Option<string>,
    annotations: Option<JsonAnnotations>,
    actionConditionKeys: Option<seq<string>>,
    resources: Option<seq<JsonResourceRef>>)

  datatype JsonResource = JsonResource(name: Option<string>, arnFormats: Option<seq<string>>)

  datatype JsonConditionKey = JsonConditionKey(name: Option<string>, types: Option<seq<string>>)

  datatype JsonService = JsonService(
    name: Option<string>,
    actions: Option<seq<JsonAction>>,
    resources: Option<seq<JsonResource>>,
    conditionKeys: Option<seq<JsonConditionKey>>)

  /** An entry of the service list: the service id and the url of its JSON document. */
  datatype ServiceInfo = ServiceInfo(service: string, url: string)

  /** The plain fetcher writes no `dependentActions`; the other one starts every action with `[]`. */
  datatype Variant = Plain | WithDependents

  // The records written to the dataset. A name is `None` where the JSON had no `Name` (a JSON null).

  datatype Action = Action(
    name: Option<string>,
    accessLevel: string,
    conditionKeys: seq<string>,
    resources: seq<Option<string>>,
    supportsResourceLevelPermissions: bool,
    properties: map<string, bool>,
    dependentActions: Option<seq<string>>,
    hasRequestTag: bool,
    hasResourceTag: bool,
    hasTagKeys: bool)

  datatype Resource = Resource(name: Option<string>, arnFormats: seq<string>)

  datatype ConditionKey = ConditionKey(name: Option<string>, types: seq<string>)

  datatype Service = Service(
    service: string, name: string, actions: seq<Action>, resources: seq<Resource>, conditionKeys: seq<ConditionKey>)

  /** The action's property flags: the empty map when the annotations or their properties are absent. */
  function PropertiesOf(a: JsonAction): map<string, bool> {
    if a.annotations.Some? && a.annotations.value.properties.Some? then a.annotations.value.properties.value else map[]
  }

  /** The flag `key` is present and true. */
  predicate Flag(props: map<string, bool>, key: string) {
    key in props && props[key]
  }

  /** The five access levels an action can be given. */
  const AccessLevels: set<string> := {"List", "Write", "Permissions management", "Tagging", "Read"}

  /** `get_access_level`: the first flag that is set, in the order list, write, permissions, tagging; else read. */
  function GetAccessLevel(a: JsonAction): (level: string)
    ensures level in AccessLevels
    ensures level == "List" <==> Flag(PropertiesOf(a), "IsList")
    ensures level == "Write" <==> !Flag(PropertiesOf(a), "IsList") && Flag(PropertiesOf(a), "IsWrite")
    ensures level == "Permissions management" <==>
      !Flag(PropertiesOf(a), "IsList") && !Flag(PropertiesOf(a), "IsWrite") && Flag(PropertiesOf(a), "IsPermissionManagement")
    ensures level == "Tagging" <==>
      !Flag(PropertiesOf(a), "IsList") && !Flag(PropertiesOf(a), "IsWrite")
      && !Flag(PropertiesOf(a), "IsPermissionManagement") && Flag(PropertiesOf(a), "IsTaggingOnly")
    ensures a.annotations.None? || a.annotations.value.properties.None? ==> level == "Read"
  {
    var props := PropertiesOf(a);
    if Flag(props, "IsList") then "List"
    else if Flag(props, "IsWrite") then "Write"
    else if Flag(props, "IsPermissionManagement") then "Permissions management"
    else if Flag(props, "IsTaggingOnly") then "Tagging"
    else "Read"
  }

  /** An action is given "Read" exactly when none of the four flags is set. */
  lemma ReadIsDefault(a: JsonAction)
    ensures GetAccessLevel(a) == "Read" <==>
      !Flag(PropertiesOf(a), "IsList") && !Flag(PropertiesOf(a), "IsWrite")
      && !Flag(PropertiesOf(a), "IsPermissionManagement") && !Flag(PropertiesOf(a), "IsTaggingOnly")
  {
    assert "Read" != "List" && "Read" != "Write" && "Read" != "Tagging" && "Read" != "Permissions management";
  }

  function RefName(r: JsonResourceRef): Option<string> {
    r.name
  }

  /** The record of one JSON action. */
  function ToAction(a: JsonAction, variant: Variant): (r: Action)
    ensures r.name == a.name && r.accessLevel == GetAccessLevel(a)
    ensures |r.resources| == |a.resources.GetOr([])|
    ensures forall k :: 0 <= k < |r.resources| ==> r.resources[k] == a.resources.GetOr([])[k].name
    ensures r.supportsResourceLevelPermissions <==> r.resources != []
    ensures r.conditionKeys == a.actionConditionKeys.GetOr([])
    ensures r.hasRequestTag <==> exists k :: 0 <= k < |r.conditionKeys| && Text.Contains(r.conditionKeys[k], "RequestTag")
    ensures r.hasResourceTag <==> exists k :: 0 <= k < |r.conditionKeys| && Text.Contains(r.conditionKeys[k], "ResourceTag")
    ensures r.hasTagKeys <==> exists k :: 0 <= k < |r.conditionKeys| && Text.Contains(r.conditionKeys[k], "TagKeys")
    ensures r.dependentActions == if variant == WithDependents then Some([]) else None
    ensures a.annotations.Some? && a.annotations.value.properties.Some? ==> r.properties == a.annotations.value.properties.value
    ensures a.annotations.None? || a.annotations.value.properties.None? ==> r.properties == map[]
  {
    var keys := a.actionConditionKeys.GetOr([]);
    var refs := a.resources.GetOr([]);
    Action(
      a.name, GetAccessLevel(a), keys, Map(RefName, refs), |refs| > 0, PropertiesOf(a),
      if variant == WithDependents then Some([]) else None,
      Text.AnyContains(keys, "RequestTag"), Text.AnyContains(keys, "ResourceTag"), Text.AnyContains(keys, "TagKeys"))
  }

  /** A resource keeps its name; its ARN formats default to none. */
  function ToResource(r: JsonResource): (x: Resource)
    ensures x.name == r.name
    ensures x.arnFormats == if r.arnFormats.Some? then r.arnFormats.value else []
  {
    Resource(r.name, r.arnFormats.GetOr([]))
  }

  /** A condition key keeps its name; its types default to none. */
  function ToConditionKey(k: JsonConditionKey): (x: ConditionKey)
    ensures x.name == k.name
    ensures x.types == if k.types.Some? then k.types.value else []
  {
    ConditionKey(k.name, k.types.GetOr([]))
  }

  function ActionMapper(variant: Variant): JsonAction -> Action {
    a => ToAction(a, variant)
  }

  /** The `processed` record: the service id, the `Name` or else the id, and the three lists mapped one to one. */
  function Process(info: ServiceInfo, data: JsonService, variant: Variant): (s: Service)
    ensures s.service == info.service
    ensures s.name == if data.name.Some? then data.name.value else info.service
    ensures |s.actions| == |data.actions.GetOr([])|
    ensures forall k :: 0 <= k < |s.actions| ==> s.actions[k] == ToAction(data.actions.GetOr([])[k], variant)
    ensures |s.resources| == |data.resources.GetOr([])|
    ensures forall k :: 0 <= k < |s.resources| ==> s.resources[k] == ToResource(data.resources.GetOr([])[k])
    ensures |s.conditionKeys| == |data.conditionKeys.GetOr([])|
    ensures forall k :: 0 <= k < |s.conditionKeys| ==> s.conditionKeys[k] == ToConditionKey(data.conditionKeys.GetOr([])[k])
  {
    Service(
      info.service, data.name.GetOr(info.service),
      Map(ActionMapper(variant), data.actions.GetOr([])),
      Map(ToResource, data.resources.GetOr([])),
      Map(ToConditionKey, data.conditionKeys.GetOr([])))
  }

  /**
   * `fetch_service_data`: the fetch oracle gives the decoded document, or nothing when the
   * request raised, the status was an error or the body was not JSON.
   */
  function Fetched(fetch: string -> Option<JsonService>, variant: Variant): ServiceInfo -> Option<Service> {
    (info: ServiceInfo) => if fetch(info.url).Some? then Some(Process(info, fetch(info.url).value, variant)) else None
  }

  /** The id a service contributes to `failed`: only when its fetch gave nothing. */
  function FetchFailure(fetch: string -> Option<JsonService>): ServiceInfo -> Option<string> {
    (info: ServiceInfo) => if fetch(info.url).None? then Some(info.service) else None
  }

  lemma FetchedApply(fetch: string -> Option<JsonService>, variant: Variant, info: ServiceInfo)
    ensures Fetched(fetch, variant)(info) == if fetch(info.url).Some? then Some(Process(info, fetch(info.url).value, variant)) else None
    ensures FetchFailure(fetch)(info) == if fetch(info.url).None? then Some(info.service) else None
  {
  }

  method FetchServiceData(info: ServiceInfo, fetch: string -> Option<JsonService>, variant: Variant)
    returns (r: Option<Service>)
    ensures r == Fetched(fetch, variant)(info)
  {
    FetchedApply(fetch, variant, info);
    var response := fetch(info.url);
    if response.None? {
      return None;
    }
    var data := response.value;
    var actions := ProcessActions(data.actions.GetOr([]), variant);
    var resources := ProcessResources(data.resources.GetOr([]));
    var keys := ProcessConditionKeys(data.conditionKeys.GetOr([]));
    return Some(Service(info.service, data.name.GetOr(info.service), actions, resources, keys));
  }

  method ProcessActions(xs: seq<JsonAction>, variant: Variant) returns (actions: seq<Action>)
    ensures actions == Map(ActionMapper(variant), xs)
  {
    actions := [];
    var i := 0;
    while i < |xs|
      invariant i <= |xs|
      invariant actions == Map(ActionMapper(variant), xs[..i])
    {
      MapStep(ActionMapper(variant), xs, i);
      actions := actions + [ToAction(xs[i], variant)];
      i := i + 1;
    }
    assert xs[..i] == xs;
  }

  method ProcessResources(xs: seq<JsonResource>) returns (resources: seq<Resource>)
    ensures resources == Map(ToResource, xs)
  {
    resources := [];
    var i := 0;
    while i < |xs|
      invariant i <= |xs|
      invariant resources == Map(ToResource, xs[..i])
    {
      MapStep(ToResource, xs, i);
      resources := resources + [Resource(xs[i].name, xs[i].arnFormats.GetOr([]))];
      i := i + 1;
    }
    assert xs[..i] == xs;
  }

  method ProcessConditionKeys(xs: seq<JsonConditionKey>) returns (keys: seq<ConditionKey>)
    ensures keys == Map(ToConditionKey, xs)
  {
    keys := [];
    var i := 0;
    while i < |xs|
      invariant i <= |xs|
      invariant keys == Map(ToConditionKey, xs[..i])
    {
      MapStep(ToConditionKey, xs, i);
      keys := keys + [ConditionKey(xs[i].name, xs[i].types.GetOr([]))];
      i := i + 1;
    }
    assert xs[..i] == xs;
  }

  /** `all_data` and `failed` are what the collecting loop has appended after visiting `visited`. */
  ghost predicate Collected(visited: seq<ServiceInfo>, fetch: string -> Option<JsonService>, variant: Variant,
                            all: seq<Service>, failed: seq<string>) {
    all == Pick(Fetched(fetch, variant), visited) && failed == Pick(FetchFailure(fetch), visited)
  }

  /** The loop over the futures in the order they complete. */
  method FetchEach(completed: seq<ServiceInfo>, fetch: string -> Option<JsonService>, variant: Variant)
    returns (all: seq<Service>, failed: seq<string>)
    ensures all == Pick(Fetched(fetch, variant), completed)
    ensures failed == Pick(FetchFailure(fetch), completed)
  {
    all, failed := [], [];
    var i := 0;
    assert Collected(completed[..i], fetch, variant, all, failed);
    while i < |completed|
      invariant i <= |completed|
      invariant Collected(completed[..i], fetch, variant, all, failed)
    {
      all, failed := FetchNext(completed, i, fetch, variant, all, failed);
      i := i + 1;
    }
    assert completed[..i] == completed;
  }

  method FetchNext(completed: seq<ServiceInfo>, i: nat, fetch: string -> Option<JsonService>, variant: Variant,
                   all: seq<Service>, failed: seq<string>)
    returns (all': seq<Service>, failed': seq<string>)
    requires i < |completed|
    requires Collected(completed[..i], fetch, variant, all, failed)
    ensures Collected(completed[..i + 1], fetch, variant, all', failed')
  {
    var result := FetchServiceData(completed[i], fetch, variant);
    FetchedApply(fetch, variant, completed[i]);
    PickStep(Fetched(fetch, variant), completed, i);
    PickStep(FetchFailure(fetch), completed, i);
    all', failed' := all, failed;
    if result.Some? {
      all' := all + [result.value];
    } else {
      failed' := failed + [completed[i].service];
    }
  }

  function ServiceKey(s: Service): string {
    s.service
  }

  function InfoId(info: ServiceInfo): string {
    info.service
  }

  /** Each fetched record carries the id of the service it was fetched for. */
  lemma FetchedKeys(fetch: string -> Option<JsonService>, variant: Variant)
    ensures forall info :: Fetched(fetch, variant)(info).Some? ==> ServiceKey(Fetched(fetch, variant)(info).value) == InfoId(info)
    ensures forall info :: FetchFailure(fetch)(info) == if Fetched(fetch, variant)(info).None? then Some(InfoId(info)) else None
  {
    forall info {
      FetchedApply(fetch, variant, info);
    }
  }

  /**
   * Whatever order the fetches complete in, the records and the failed ids are those of the
   * listed services, and each listed id lands in exactly one of the two.
   */
  lemma CompletionOrder(completed: seq<ServiceInfo>, services: seq<ServiceInfo>, fetch: string -> Option<JsonService>, variant: Variant)
    requires multiset(completed) == multiset(services)
    ensures multiset(Pick(Fetched(fetch, variant), completed)) == multiset(Pick(Fetched(fetch, variant), services))
    ensures multiset(Pick(FetchFailure(fetch), completed)) == multiset(Pick(FetchFailure(fetch), services))
    ensures multiset(Map(ServiceKey, Pick(Fetched(fetch, variant), completed))) + multiset(Pick(FetchFailure(fetch), completed))
         == multiset(Map(InfoId, services))
  {
    FetchedKeys(fetch, variant);
    Consolidation.PartitionCovers(Fetched(fetch, variant), FetchFailure(fetch), InfoId, ServiceKey, completed);
    MapPermutation(InfoId, completed, services);
    PickPermutation(Fetched(fetch, variant), completed, services);
    PickPermutation(FetchFailure(fetch), completed, services);
  }
}
