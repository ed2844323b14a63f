// The full HTML scraper: every service's documentation page is located by trying
// candidate page names, its actions, resource types and condition keys tables are
// read row by row, and the records are consolidated into one dataset.
module IamFull {
  import opened Wrappers
  import opened Lists
  import Text
  import Html
  import DependentPattern
  import Consolidation

  /** Page-name prefixes, in the order they are tried. */
  const UrlPatternPrefixes: seq<string> := ["list_amazon", "list_aws", "list_"]

  /** Services whose page name follows no pattern, keyed by normalised name. */
  const SpecialCases: map<string, string> := map[
    "iam" := "list_awsidentityandaccessmanagementiam.html",
    "identityandaccessmanagement" := "list_awsidentityandaccessmanagementiam.html",
    "glue" := "list_awsglue.html"
  ]

  /** Drop every `-` and `_`, then lower-case. */
  function NormalizeServiceName(name: string): (r: string)
    ensures '-' !in r && '_' !in r
    ensures forall k :: 0 <= k < |r| ==> !Text.IsUpper(r[k])
    ensures |r| <= |name|
  {
    Text.Lower(Text.RemoveChar(Text.RemoveChar(name, '-'), '_'))
  }

  /** Normalising a normalised name changes nothing. */
  lemma NormalizeIdempotent(name: string)
    ensures NormalizeServiceName(NormalizeServiceName(name)) == NormalizeServiceName(name)
  {
    var n := NormalizeServiceName(name);
    Text.RemoveAbsentChar(n, '-');
    Text.RemoveAbsentChar(n, '_');
    Text.LowerOfLower(n);
  }

  /** Normalising works piece by piece, so the kept characters keep their order. */
  lemma NormalizeAppend(a: string, b: string)
    ensures NormalizeServiceName(a + b) == NormalizeServiceName(a) + NormalizeServiceName(b)
  {
    Text.RemoveCharAppend(a, b, '-');
    Text.RemoveCharAppend(Text.RemoveChar(a, '-'), Text.RemoveChar(b, '-'), '_');
    Text.LowerAppend(Text.RemoveChar(Text.RemoveChar(a, '-'), '_'), Text.RemoveChar(Text.RemoveChar(b, '-'), '_'));
  }

  /** One character: `-` and `_` are dropped, every other character is kept, lowered. */
  lemma NormalizeChar(c: char)
    ensures NormalizeServiceName([c]) == if c == '-' || c == '_' then [] else [Text.LowerChar(c)]
  {
    assert [c][1..] == [];
  }

  /** The pages tried for a normalised name: the special case first, when there is one, then the patterns. */
  function CandidateUrls(normalized: string): (r: seq<string>)
    ensures |r| == if normalized in SpecialCases then 4 else 3
    ensures normalized in SpecialCases ==> r[0] == Html.DocUrl(SpecialCases[normalized])
    ensures forall i :: 0 <= i < 3 ==> r[|r| - 3 + i] == Html.PatternUrl(UrlPatternPrefixes[i], normalized)
  {
    (if normalized in SpecialCases then [Html.DocUrl(SpecialCases[normalized])] else [])
      + [Html.PatternUrl(UrlPatternPrefixes[0], normalized), Html.PatternUrl(UrlPatternPrefixes[1], normalized), Html.PatternUrl(UrlPatternPrefixes[2], normalized)]
  }

  function Candidates(serviceName: string): seq<string> {
    CandidateUrls(NormalizeServiceName(serviceName))
  }

  /** A HEAD request that gives status 200; one that raised (`None`) does not. */
  predicate Found(head: string -> Option<int>, url: string) {
    head(url) == Some(200)
  }

  /** `urls[k]` is found and no url before it is. */
  predicate IsFirstFound(urls: seq<string>, head: string -> Option<int>, k: nat) {
    k < |urls| && Found(head, urls[k]) && forall j :: 0 <= j < k ==> !Found(head, urls[j])
  }

  /** The index of the first of `urls[i..]` that is found. */
  function FirstFoundFrom(urls: seq<string>, head: string -> Option<int>, i: nat): (r: Option<nat>)
    requires i <= |urls|
    ensures r.Some? ==> i <= r.value < |urls| && Found(head, urls[r.value])
    ensures r.Some? ==> forall j :: i <= j < r.value ==> !Found(head, urls[j])
    ensures r.None? ==> forall j :: i <= j < |urls| ==> !Found(head, urls[j])
    decreases |urls| - i
  {
    if i == |urls| then None
    else if Found(head, urls[i]) then Some(i)
    else FirstFoundFrom(urls, head, i + 1)
  }

  /** `get_service_doc_url`: the first candidate page that is found, or none. */
  function DocUrlFor(serviceName: string, head: string -> Option<int>): (r: Option<string>)
    ensures r.Some? ==> exists k: nat :: IsFirstFound(Candidates(serviceName), head, k) && r.value == Candidates(serviceName)[k]
    ensures r.None? <==> forall u :: u in Candidates(serviceName) ==> !Found(head, u)
  {
    var urls := Candidates(serviceName);
    var k := FirstFoundFrom(urls, head, 0);
    if k.Some? then
      assert IsFirstFound(urls, head, k.value);
      Some(urls[k.value])
    else None
  }

  /** A found special-case page wins over every pattern. */
  lemma SpecialCaseFirst(serviceName: string, head: string -> Option<int>)
    requires NormalizeServiceName(serviceName) in SpecialCases
    requires Found(head, Html.DocUrl(SpecialCases[NormalizeServiceName(serviceName)]))
    ensures DocUrlFor(serviceName, head) == Some(Html.DocUrl(SpecialCases[NormalizeServiceName(serviceName)]))
  {
  }

  /** `get_service_doc_url(service_name)`: the special case first, then the patterns in order. */
  method GetServiceDocUrl(serviceName: string, head: string -> Option<int>) returns (url: Option<string>)
    ensures url == DocUrlFor(serviceName, head)
  {
    var normalized := NormalizeServiceName(serviceName);
    ghost var urls := CandidateUrls(normalized);
    ghost var offset := if normalized in SpecialCases then 1 else 0;
    if normalized in SpecialCases {
      var candidate := Html.DocUrl(SpecialCases[normalized]);
      if head(candidate) == Some(200) {
        return Some(candidate);
      }
    }
    var i := 0;
    while i < |UrlPatternPrefixes|
      invariant i <= |UrlPatternPrefixes|
      invariant FirstFoundFrom(urls, head, 0) == FirstFoundFrom(urls, head, offset + i)
    {
      var candidate := Html.PatternUrl(UrlPatternPrefixes[i], normalized);
      assert candidate == urls[offset + i];
      if head(candidate) == Some(200) {
        return Some(candidate);
      }
      i := i + 1;
    }
    return None;
  }

  /** The `properties` flags derived from the lowered access-level text. */
  datatype Properties = Properties(
    isList: bool, isRead: bool, isWrite: bool, isPermissionManagement: bool, isTaggingOnly: bool)

  /** One row of the actions table. */
  datatype Action = Action(
    name: string,
    description: string,
    accessLevel: string,
    resources: seq<string>,
    conditionKeys: seq<string>,
    dependentActions: seq<string>,
    supportsResourceLevelPermissions: bool,
    hasRequestTag: bool,
    hasResourceTag: bool,
    hasTagKeys: bool,
    properties: Properties)

  /** One row of the resource types table. */
  datatype Resource = Resource(name: string, arnFormats: seq<string>)

  /** One row of the condition keys table. */
  datatype ConditionKey = ConditionKey(name: string, types: seq<string>)

  /** The record of one scraped service. */
  datatype Service = Service(
    service: string, name: string, actions: seq<Action>, resources: seq<Resource>, conditionKeys: seq<ConditionKey>)

  /** Substring tests on the lowered access level; a read that also mentions writing is a write. */
  function PropertiesOf(accessLevel: string): (p: Properties)
    ensures !(p.isRead && p.isWrite)
    ensures p.isWrite <==> Text.Contains(Text.Lower(accessLevel), "write")
    ensures p.isRead <==> Text.Contains(Text.Lower(accessLevel), "read") && !p.isWrite
    ensures p.isPermissionManagement
      <==> Text.Contains(Text.Lower(accessLevel), "permission") || Text.Contains(Text.Lower(accessLevel), "management")
    ensures p.isList <==> Text.Contains(Text.Lower(accessLevel), "list")
    ensures p.isTaggingOnly <==> Text.Contains(Text.Lower(accessLevel), "tagging")
  {
    var access := Text.Lower(accessLevel);
    Properties(
      Text.Contains(access, "list"),
      Text.Contains(access, "read") && !Text.Contains(access, "write"),
      Text.Contains(access, "write"),
      Text.Contains(access, "permission") || Text.Contains(access, "management"),
      Text.Contains(access, "tagging"))
  }

  /** A resource link is kept when its stripped text is not empty. */
  function ResourceLink(link: string): Option<string> {
    var t := Text.Strip(link);
    if t != [] then Some(t) else None
  }

  /** A condition-key link is kept when its stripped text is not empty and holds a `:`. */
  function ConditionKeyLink(link: string): Option<string> {
    var t := Text.Strip(link);
    if t != [] && ':' in t then Some(t) else None
  }

  /** Some resource name holds a `*`. */
  predicate HasWildcard(resources: seq<string>) {
    exists k :: 0 <= k < |resources| && '*' in resources[k]
  }

  /** The action a row of at least four cells yields. */
  function ActionFromRow(cells: Html.Row): Action
    requires |cells| >= 4
  {
    var level := Text.Strip(cells[2].text);
    var resources := ResourceNames(cells[3].links);
    var keys := if |cells| > 4 then ConditionKeyNames(cells[4].links) else [];
    Action(
      Text.Strip(cells[0].text),
      Text.Strip(cells[1].text),
      level,
      resources,
      keys,
      if |cells| > 5 then DependentPattern.FindAll(Text.Strip(cells[|cells| - 1].text)) else [],
      HasWildcard(resources),
      Text.AnyContains(keys, "RequestTag"),
      Text.AnyContains(keys, "ResourceTag"),
      Text.AnyContains(keys, "TagKeys"),
      PropertiesOf(level))
  }

  /** The resources are the non-empty stripped links of cell 3; a wildcard among them means resource-level support. */
  lemma ActionResources(cells: Html.Row)
    requires |cells| >= 4
    ensures forall x :: x in ActionFromRow(cells).resources <==> x != [] && exists l :: l in cells[3].links && Text.Strip(l) == x
    ensures ActionFromRow(cells).supportsResourceLevelPermissions <==> exists x :: x in ActionFromRow(cells).resources && '*' in x
  {
    var a := ActionFromRow(cells);
    assert a.resources == ResourceNames(cells[3].links);
    assert a.supportsResourceLevelPermissions == HasWildcard(a.resources);
    if HasWildcard(a.resources) {
      var k :| 0 <= k < |a.resources| && '*' in a.resources[k];
      assert a.resources[k] in a.resources;
    }
  }

  /** The condition keys are the stripped links of cell 4 that hold a colon; the tag flags are read off them. */
  lemma ActionConditionKeys(cells: Html.Row)
    requires |cells| >= 4
    ensures forall x :: x in ActionFromRow(cells).conditionKeys <==>
      |cells| > 4 && x != [] && ':' in x && exists l :: l in cells[4].links && Text.Strip(l) == x
  {
    var a := ActionFromRow(cells);
    assert a.conditionKeys == if |cells| > 4 then ConditionKeyNames(cells[4].links) else [];
  }

  /** The three tag flags say whether some condition key mentions the tag. */
  lemma ActionTagFlags(cells: Html.Row)
    requires |cells| >= 4
    ensures var a := ActionFromRow(cells);
      && (a.hasRequestTag <==> exists k :: 0 <= k < |a.conditionKeys| && Text.Contains(a.conditionKeys[k], "RequestTag"))
      && (a.hasResourceTag <==> exists k :: 0 <= k < |a.conditionKeys| && Text.Contains(a.conditionKeys[k], "ResourceTag"))
      && (a.hasTagKeys <==> exists k :: 0 <= k < |a.conditionKeys| && Text.Contains(a.conditionKeys[k], "TagKeys"))
  {
    var a := ActionFromRow(cells);
    assert a.conditionKeys == if |cells| > 4 then ConditionKeyNames(cells[4].links) else [];
  }

  /** Rows of at most five cells have no dependent actions; every dependent action is a `service:Action` token. */
  lemma ActionDependents(cells: Html.Row)
    requires |cells| >= 4
    ensures |cells| <= 5 ==> ActionFromRow(cells).dependentActions == []
    ensures |cells| > 5 ==> ActionFromRow(cells).dependentActions == DependentPattern.FindAll(Text.Strip(cells[|cells| - 1].text))
    ensures forall k :: 0 <= k < |ActionFromRow(cells).dependentActions| ==>
      DependentPattern.IsDependentActionToken(ActionFromRow(cells).dependentActions[k])
  {
    var a := ActionFromRow(cells);
    assert a.dependentActions == if |cells| > 5 then DependentPattern.FindAll(Text.Strip(cells[|cells| - 1].text)) else [];
  }

  /** The name, description and access level are the stripped texts of cells 0 to 2; the flags come from the level. */
  lemma ActionFields(cells: Html.Row)
    requires |cells| >= 4
    ensures var a := ActionFromRow(cells);
      && a.name == Text.Strip(cells[0].text)
      && a.description == Text.Strip(cells[1].text)
      && a.accessLevel == Text.Strip(cells[2].text)
      && a.properties == PropertiesOf(a.accessLevel)
  {
  }

  /** An action is never both read and write. */
  lemma ActionReadWrite(cells: Html.Row)
    requires |cells| >= 4
    ensures !(ActionFromRow(cells).properties.isRead && ActionFromRow(cells).properties.isWrite)
  {
    assert ActionFromRow(cells).properties == PropertiesOf(Text.Strip(cells[2].text));
  }

  /** The kept resource links of a cell, in link order. */
  function ResourceNames(links: seq<string>): (r: seq<string>)
    ensures forall x :: x in r <==> x != [] && exists l :: l in links && Text.Strip(l) == x
  {
    forall x | true
      ensures x in Pick(ResourceLink, links) <==> exists l :: l in links && ResourceLink(l) == Some(x)
    {
      PickMembers(ResourceLink, links, x);
    }
    Pick(ResourceLink, links)
  }

  /** The kept condition-key links of a cell, in link order. */
  function ConditionKeyNames(links: seq<string>): (r: seq<string>)
    ensures forall x :: x in r <==> x != [] && ':' in x && exists l :: l in links && Text.Strip(l) == x
  {
    forall x | true
      ensures x in Pick(ConditionKeyLink, links) <==> exists l :: l in links && ConditionKeyLink(l) == Some(x)
    {
      PickMembers(ConditionKeyLink, links, x);
    }
    Pick(ConditionKeyLink, links)
  }

  /** A resource link the cell keeps: one whose stripped text is not empty. */
  predicate IsResourceLink(link: string) {
    Text.Strip(link) != []
  }

  /** A condition-key link the cell keeps: one whose stripped text is not empty and holds a `:`. */
  predicate IsConditionKeyLink(link: string) {
    Text.Strip(link) != [] && ':' in Text.Strip(link)
  }

  /** The resource names are the stripped texts of the kept links, one per kept link and in link order. */
  lemma ResourceNamesOrder(links: seq<string>)
    ensures |ResourceNames(links)| == |Filter(IsResourceLink, links)|
    ensures forall k :: 0 <= k < |ResourceNames(links)| ==>
      ResourceNames(links)[k] == Text.Strip(Filter(IsResourceLink, links)[k])
  {
    PickFiltered(ResourceLink, IsResourceLink, links);
  }

  /** The condition-key names are the stripped texts of the kept links, one per kept link and in link order. */
  lemma ConditionKeyNamesOrder(links: seq<string>)
    ensures |ConditionKeyNames(links)| == |Filter(IsConditionKeyLink, links)|
    ensures forall k :: 0 <= k < |ConditionKeyNames(links)| ==>
      ConditionKeyNames(links)[k] == Text.Strip(Filter(IsConditionKeyLink, links)[k])
  {
    PickFiltered(ConditionKeyLink, IsConditionKeyLink, links);
  }

  /**
   * `action_data` for one row, built field by field: the resource links of cell 3, the
   * condition-key links of cell 4, the dependent actions of the last cell, then the flags.
   */
  method ScrapeActionRow(cells: Html.Row) returns (a: Action)
    requires |cells| >= 4
    ensures a == ActionFromRow(cells)
  {
    var resources, supports := ScrapeResourceLinks(cells[3].links);
    var keys: seq<string> := [];
    if |cells| > 4 {
      keys := ScrapeConditionKeyLinks(cells[4].links);
    }
    var dependents: seq<string> := [];
    if |cells| > 5 {
      dependents := DependentPattern.FindAll(Text.Strip(cells[|cells| - 1].text));
    }
    var level := Text.Strip(cells[2].text);
    var properties := PropertiesOf(level);
    a := Action(
      Text.Strip(cells[0].text), Text.Strip(cells[1].text), level, resources, keys, dependents, supports,
      Text.AnyContains(keys, "RequestTag"), Text.AnyContains(keys, "ResourceTag"), Text.AnyContains(keys, "TagKeys"),
      properties);
  }

  /** The loop over the links of cell 3: names are appended, and a `*` in one sets the flag. */
  method ScrapeResourceLinks(links: seq<string>) returns (resources: seq<string>, supports: bool)
    ensures resources == Pick(ResourceLink, links)
    ensures supports == HasWildcard(resources)
  {
    resources, supports := [], false;
    var i := 0;
    while i < |links|
      invariant i <= |links|
      invariant LinksRead(links[..i], resources, supports)
    {
      ResourceLinkStep(links, i, resources, supports);
      var resourceName := Text.Strip(links[i]);
      if resourceName != [] {
        resources := resources + [resourceName];
        if '*' in resourceName {
          supports := true;
        }
      }
      i := i + 1;
    }
    assert links[..i] == links;
  }

  /** What the loop over the resource links has built after visiting `visited`. */
  ghost predicate LinksRead(visited: seq<string>, resources: seq<string>, supports: bool) {
    resources == Pick(ResourceLink, visited) && supports == HasWildcard(resources)
  }

  lemma ResourceLinkStep(links: seq<string>, i: nat, resources: seq<string>, supports: bool)
    requires i < |links| && LinksRead(links[..i], resources, supports)
    ensures var name := Text.Strip(links[i]);
      LinksRead(links[..i + 1], if name != [] then resources + [name] else resources, supports || (name != [] && '*' in name))
  {
    PickStep(ResourceLink, links, i);
    var name := Text.Strip(links[i]);
    if name != [] {
      WildcardStep(resources, name);
    }
  }

  lemma WildcardStep(resources: seq<string>, name: string)
    ensures HasWildcard(resources + [name]) <==> HasWildcard(resources) || '*' in name
  {
    var more := resources + [name];
    assert more[|resources|] == name;
    if HasWildcard(resources) {
      var k :| 0 <= k < |resources| && '*' in resources[k];
      assert more[k] == resources[k];
    }
  }

  /** The loop over the links of cell 4. */
  method ScrapeConditionKeyLinks(links: seq<string>) returns (keys: seq<string>)
    ensures keys == Pick(ConditionKeyLink, links)
  {
    keys := [];
    var i := 0;
    while i < |links|
      invariant i <= |links|
      invariant keys == Pick(ConditionKeyLink, links[..i])
    {
      PickStep(ConditionKeyLink, links, i);
      var conditionKey := Text.Strip(links[i]);
      if conditionKey != [] && ':' in conditionKey {
        assert Pick(ConditionKeyLink, links[..i + 1]) == keys + [conditionKey];
        keys := keys + [conditionKey];
      } else {
        assert Pick(ConditionKeyLink, links[..i + 1]) == keys;
      }
      i := i + 1;
    }
    assert links[..i] == links;
  }

  /** A row of the actions table yields an action when it has at least four cells. */
  function ActionRow(cells: Html.Row): (r: Option<Action>)
    ensures r.Some? <==> |cells| >= 4
    ensures r.Some? ==> r.value == ActionFromRow(cells)
  {
    if |cells| >= 4 then Some(ActionFromRow(cells)) else None
  }

  /** A row of the resource types table: the stripped name, and its ARN unless that is empty. */
  function ResourceRow(cells: Html.Row): (r: Option<Resource>)
    ensures r.Some? <==> |cells| >= 2 && Text.Strip(cells[0].text) != []
    ensures r.Some? ==> r.value.name == Text.Strip(cells[0].text)
    ensures r.Some? ==> r.value.arnFormats == if Text.Strip(cells[1].text) == [] then [] else [Text.Strip(cells[1].text)]
  {
    if |cells| >= 2 then
      var name := Text.Strip(cells[0].text);
      var arn := Text.Strip(cells[1].text);
      if name != [] then Some(Resource(name, if arn != [] then [arn] else [])) else None
    else None
  }

  /** A row of the condition keys table: the stripped name, and its type, `String` when the cell is empty. */
  function ConditionKeyRow(cells: Html.Row): (r: Option<ConditionKey>)
    ensures r.Some? <==> |cells| >= 2 && Text.Strip(cells[0].text) != []
    ensures r.Some? ==> r.value.name == Text.Strip(cells[0].text)
    ensures r.Some? ==> r.value.types == if Text.Strip(cells[1].text) == [] then ["String"] else [Text.Strip(cells[1].text)]
  {
    if |cells| >= 2 then
      var name := Text.Strip(cells[0].text);
      var keyType := Text.Strip(cells[1].text);
      if name != [] then Some(ConditionKey(name, if keyType != [] then [keyType] else ["String"])) else None
    else None
  }

  /** Which of the three tables a table is, by its header texts; the first test that holds wins. */
  datatype TableKind = ActionsTable | ResourcesTable | ConditionKeysTable | OtherTable

  function KindOf(headers: seq<string>): (k: TableKind)
    ensures k == ActionsTable <==> "Actions" in headers && "Access level" in headers
    ensures k == ResourcesTable <==>
      !("Actions" in headers && "Access level" in headers) && "Resource types" in headers && "ARN" in headers
    ensures k == ConditionKeysTable <==>
      && !("Actions" in headers && "Access level" in headers)
      && !("Resource types" in headers && "ARN" in headers)
      && "Condition keys" in headers && "Type" in headers
  {
    if "Actions" in headers && "Access level" in headers then ActionsTable
    else if "Resource types" in headers && "ARN" in headers then ResourcesTable
    else if "Condition keys" in headers && "Type" in headers then ConditionKeysTable
    else OtherTable
  }

  /** The actions one table yields: its rows when it is an actions table, else none. */
  function TableActions(t: Html.Table): seq<Action> {
    if KindOf(Html.Headers(t)) == ActionsTable then Pick(ActionRow, Html.BodyRows(t)) else []
  }

  function TableResources(t: Html.Table): seq<Resource> {
    if KindOf(Html.Headers(t)) == ResourcesTable then Pick(ResourceRow, Html.BodyRows(t)) else []
  }

  function TableConditionKeys(t: Html.Table): seq<ConditionKey> {
    if KindOf(Html.Headers(t)) == ConditionKeysTable then Pick(ConditionKeyRow, Html.BodyRows(t)) else []
  }

  /** The actions of every actions table, table after table, row after row. */
  function ActionsOf(tables: seq<Html.Table>): seq<Action> {
    Concat(TableActions, tables)
  }

  function ResourcesOf(tables: seq<Html.Table>): seq<Resource> {
    Concat(TableResources, tables)
  }

  function ConditionKeysOf(tables: seq<Html.Table>): seq<ConditionKey> {
    Concat(TableConditionKeys, tables)
  }

  /** Every table contributes to the list of its own kind only, and to none when it is of no kind. */
  lemma TableContributes(t: Html.Table)
    ensures var kind := KindOf(Html.Headers(t));
      && ActionsOf([t]) == (if kind == ActionsTable then Pick(ActionRow, Html.BodyRows(t)) else [])
      && ResourcesOf([t]) == (if kind == ResourcesTable then Pick(ResourceRow, Html.BodyRows(t)) else [])
      && ConditionKeysOf([t]) == (if kind == ConditionKeysTable then Pick(ConditionKeyRow, Html.BodyRows(t)) else [])
  {
    ConcatOne(TableActions, t);
    ConcatOne(TableResources, t);
    ConcatOne(TableConditionKeys, t);
  }

  /** The tables are read in document order: the lists of two runs of tables are concatenated. */
  lemma TablesAppend(a: seq<Html.Table>, b: seq<Html.Table>)
    ensures ActionsOf(a + b) == ActionsOf(a) + ActionsOf(b)
    ensures ResourcesOf(a + b) == ResourcesOf(a) + ResourcesOf(b)
    ensures ConditionKeysOf(a + b) == ConditionKeysOf(a) + ConditionKeysOf(b)
  {
    ConcatAppend(TableActions, a, b);
    ConcatAppend(TableResources, a, b);
    ConcatAppend(TableConditionKeys, a, b);
  }

  /** A row the actions table reads: one of at least four cells. */
  predicate HasActionCells(row: Html.Row) {
    |row| >= 4
  }

  /** An actions table yields one action per row of at least four cells, in row order. */
  lemma ActionsTableRows(t: Html.Table)
    requires KindOf(Html.Headers(t)) == ActionsTable
    ensures ActionsOf([t]) == Pick(ActionRow, Html.BodyRows(t))
    ensures |ActionsOf([t])| == |Filter(HasActionCells, Html.BodyRows(t))|
    ensures forall k :: 0 <= k < |ActionsOf([t])| ==>
      ActionsOf([t])[k] == ActionFromRow(Filter(HasActionCells, Html.BodyRows(t))[k])
  {
    ConcatOne(TableActions, t);
    PickFiltered(ActionRow, HasActionCells, Html.BodyRows(t));
  }

  /** The rows of an actions table become actions. */
  method ScrapeActionRows(rows: seq<Html.Row>) returns (actions: seq<Action>)
    ensures actions == Pick(ActionRow, rows)
  {
    actions := [];
    var i := 0;
    while i < |rows|
      invariant i <= |rows|
      invariant actions == Pick(ActionRow, rows[..i])
    {
      PickStep(ActionRow, rows, i);
      if |rows[i]| >= 4 {
        var a := ScrapeActionRow(rows[i]);
        assert Pick(ActionRow, rows[..i + 1]) == Pick(ActionRow, rows[..i]) + [a];
        actions := actions + [a];
      } else {
        assert Pick(ActionRow, rows[..i + 1]) == Pick(ActionRow, rows[..i]);
      }
      i := i + 1;
    }
    assert rows[..i] == rows;
  }

  method ScrapeResourceRows(rows: seq<Html.Row>) returns (resources: seq<Resource>)
    ensures resources == Pick(ResourceRow, rows)
  {
    resources := [];
    var i := 0;
    while i < |rows|
      invariant i <= |rows|
      invariant resources == Pick(ResourceRow, rows[..i])
    {
      PickStep(ResourceRow, rows, i);
      var resource := ScrapeResourceRow(rows[i]);
      if resource.Some? {
        assert Pick(ResourceRow, rows[..i + 1]) == Pick(ResourceRow, rows[..i]) + [resource.value];
        resources := resources + [resource.value];
      } else {
        assert Pick(ResourceRow, rows[..i + 1]) == Pick(ResourceRow, rows[..i]);
      }
      i := i + 1;
    }
    assert rows[..i] == rows;
  }

  method ScrapeResourceRow(cells: Html.Row) returns (resource: Option<Resource>)
    ensures resource == ResourceRow(cells)
  {
    resource := None;
    if |cells| >= 2 {
      var name := Text.Strip(cells[0].text);
      var arn := Text.Strip(cells[1].text);
      if name != [] {
        resource := Some(Resource(name, if arn != [] then [arn] else []));
      }
    }
  }

  method ScrapeConditionKeyRows(rows: seq<Html.Row>) returns (keys: seq<ConditionKey>)
    ensures keys == Pick(ConditionKeyRow, rows)
  {
    keys := [];
    var i := 0;
    while i < |rows|
      invariant i <= |rows|
      invariant keys == Pick(ConditionKeyRow, rows[..i])
    {
      PickStep(ConditionKeyRow, rows, i);
      var key := ScrapeConditionKeyRow(rows[i]);
      if key.Some? {
        assert Pick(ConditionKeyRow, rows[..i + 1]) == Pick(ConditionKeyRow, rows[..i]) + [key.value];
        keys := keys + [key.value];
      } else {
        assert Pick(ConditionKeyRow, rows[..i + 1]) == Pick(ConditionKeyRow, rows[..i]);
      }
      i := i + 1;
    }
    assert rows[..i] == rows;
  }

  method ScrapeConditionKeyRow(cells: Html.Row) returns (key: Option<ConditionKey>)
    ensures key == ConditionKeyRow(cells)
  {
    key := None;
    if |cells| >= 2 {
      var name := Text.Strip(cells[0].text);
      var keyType := Text.Strip(cells[1].text);
      if name != [] {
        key := Some(ConditionKey(name, if keyType != [] then [keyType] else ["String"]));
      }
    }
  }

  /** The loop over the page's tables, each read by the first of the three tests its headers pass. */
  method ScrapeTables(tables: seq<Html.Table>)
    returns (actions: seq<Action>, resources: seq<Resource>, keys: seq<ConditionKey>)
    ensures actions == ActionsOf(tables)
    ensures resources == ResourcesOf(tables)
    ensures keys == ConditionKeysOf(tables)
  {
    actions, resources, keys := [], [], [];
    var i := 0;
    assert TablesRead(tables[..i], actions, resources, keys);
    while i < |tables|
      invariant i <= |tables|
      invariant TablesRead(tables[..i], actions, resources, keys)
    {
      TablesStep(tables, i);
      var t := tables[i];
      var headers := Html.Headers(t);
      var kind := KindOf(headers);
      if kind == ActionsTable {
        var more := ScrapeActionRows(Html.BodyRows(t));
        actions := actions + more;
      } else if kind == ResourcesTable {
        var more := ScrapeResourceRows(Html.BodyRows(t));
        resources := resources + more;
      } else if kind == ConditionKeysTable {
        var more := ScrapeConditionKeyRows(Html.BodyRows(t));
        keys := keys + more;
      }
      i := i + 1;
    }
    assert tables[..i] == tables;
  }

  /** What the loop over the tables has collected after visiting `visited`. */
  ghost predicate TablesRead(visited: seq<Html.Table>, actions: seq<Action>, resources: seq<Resource>, keys: seq<ConditionKey>) {
    actions == ActionsOf(visited) && resources == ResourcesOf(visited) && keys == ConditionKeysOf(visited)
  }

  /** One more table: each list grows by that table's rows in its own kind only. */
  lemma TablesStep(tables: seq<Html.Table>, i: nat)
    requires i < |tables|
    ensures var kind := KindOf(Html.Headers(tables[i]));
      && ActionsOf(tables[..i + 1])
         == ActionsOf(tables[..i]) + (if kind == ActionsTable then Pick(ActionRow, Html.BodyRows(tables[i])) else [])
      && ResourcesOf(tables[..i + 1])
         == ResourcesOf(tables[..i]) + (if kind == ResourcesTable then Pick(ResourceRow, Html.BodyRows(tables[i])) else [])
      && ConditionKeysOf(tables[..i + 1])
         == ConditionKeysOf(tables[..i]) + (if kind == ConditionKeysTable then Pick(ConditionKeyRow, Html.BodyRows(tables[i])) else [])
  {
    ConcatStep(TableActions, tables, i);
    ConcatStep(TableResources, tables, i);
    ConcatStep(TableConditionKeys, tables, i);
  }

  /** The display name: the stripped service name of the page title, else the service id. */
  function DisplayName(page: Html.Page, serviceName: string): string {
    if page.title.Some? then Text.Strip(page.title.value) else serviceName
  }

  /**
   * `scrape_service_data`: nothing when no candidate page is found or the GET raises;
   * otherwise the record of the page's tables, whatever status the GET gave.
   */
  function ScrapeService(serviceName: string, head: string -> Option<int>, get: string -> Option<Html.Response>)
    : Option<Service>
  {
    var url := DocUrlFor(serviceName, head);
    if url.None? then None
    else
      var response := get(url.value);
      if response.None? then None
      else
        var page := response.value.page;
        Some(Service(serviceName, DisplayName(page, serviceName),
          ActionsOf(page.tables), ResourcesOf(page.tables), ConditionKeysOf(page.tables)))
  }

  method ScrapeServiceData(serviceName: string, head: string -> Option<int>, get: string -> Option<Html.Response>)
    returns (r: Option<Service>)
    ensures r == ScrapeService(serviceName, head, get)
  {
    var url := GetServiceDocUrl(serviceName, head);
    if url.None? {
      return None;
    }
    var response := get(url.value);
    if response.None? {
      return None;
    }
    var page := response.value.page;
    var displayName := serviceName;
    if page.title.Some? {
      displayName := Text.Strip(page.title.value);
    }
    var actions, resources, keys := ScrapeTables(page.tables);
    return Some(Service(serviceName, displayName, actions, resources, keys));
  }

  /** The id a listed service is known by: its name. */
  function Identity(name: string): string {
    name
  }

  function ServiceKey(s: Service): string {
    s.service
  }

  function Scraper(head: string -> Option<int>, get: string -> Option<Html.Response>): string -> Option<Service> {
    name => ScrapeService(name, head, get)
  }

  /** A record is written exactly when a page is found and its GET does not raise; it carries the service id. */
  lemma ScrapeServiceOutcome(serviceName: string, head: string -> Option<int>, get: string -> Option<Html.Response>)
    ensures ScrapeService(serviceName, head, get).Some?
      <==> DocUrlFor(serviceName, head).Some? && get(DocUrlFor(serviceName, head).value).Some?
    ensures ScrapeService(serviceName, head, get).Some? ==> ScrapeService(serviceName, head, get).value.service == serviceName
  {
  }

  /**
   * The record of a found page: the stripped title or else the service id as its name,
   * and the actions, resource types and condition keys of the page's tables.
   */
  lemma ScrapeServiceContents(serviceName: string, head: string -> Option<int>, get: string -> Option<Html.Response>)
    requires DocUrlFor(serviceName, head).Some? && get(DocUrlFor(serviceName, head).value).Some?
    ensures var page := get(DocUrlFor(serviceName, head).value).value.page;
      var r := ScrapeService(serviceName, head, get);
      && r.Some?
      && r.value.name == (if page.title.Some? then Text.Strip(page.title.value) else serviceName)
      && r.value.actions == ActionsOf(page.tables)
      && r.value.resources == ResourcesOf(page.tables)
      && r.value.conditionKeys == ConditionKeysOf(page.tables)
  {
  }

  /** The name a listed service contributes to `failed`: only when scraping it gave nothing. */
  function ScrapeFailure(head: string -> Option<int>, get: string -> Option<Html.Response>): string -> Option<string> {
    name => if ScrapeService(name, head, get).None? then Some(name) else None
  }

  lemma ScraperApply(head: string -> Option<int>, get: string -> Option<Html.Response>, name: string)
    ensures Scraper(head, get)(name) == ScrapeService(name, head, get)
    ensures ScrapeFailure(head, get)(name) == if ScrapeService(name, head, get).None? then Some(name) else None
  {
  }

  /**
   * `main`: nothing when the service list cannot be fetched; otherwise every listed
   * service is scraped in list order, and the records are written sorted by service id.
   */
  method ScrapeAll(listing: Option<seq<string>>, head: string -> Option<int>, get: string -> Option<Html.Response>, lastUpdated: string)
    returns (d: Option<Consolidation.Dataset<Service>>)
    ensures d.Some? <==> listing.Some?
    ensures d.Some? ==> Consolidation.SortedBy(d.value.services, ServiceKey)
    ensures d.Some? ==> multiset(d.value.services) == multiset(Pick(Scraper(head, get), listing.value))
    ensures d.Some? ==> d.value.failedServices == Pick(ScrapeFailure(head, get), listing.value)
    ensures d.Some? ==> d.value.totalServices == |d.value.services|
    ensures d.Some? ==> d.value.lastUpdated == lastUpdated
    ensures d.Some? ==> multiset(Map(ServiceKey, d.value.services)) + multiset(d.value.failedServices) == multiset(listing.value)
  {
    if listing.None? {
      return None;
    }
    var services := listing.value;
    var all, failed := ScrapeEach(services, head, get);
    var dataset := Consolidation.Consolidate(all, failed, ServiceKey, lastUpdated);
    forall name
      ensures Scraper(head, get)(name).Some? ==> ServiceKey(Scraper(head, get)(name).value) == name
      ensures ScrapeFailure(head, get)(name) == if Scraper(head, get)(name).None? then Some(Identity(name)) else None
    {
      ScraperApply(head, get, name);
      ScrapeServiceOutcome(name, head, get);
    }
    Consolidation.PartitionCovers(Scraper(head, get), ScrapeFailure(head, get), Identity, ServiceKey, services);
    MapPermutation(ServiceKey, dataset.services, all);
    assert Map(Identity, services) == services;
    return Some(dataset);
  }

  /** `all` and `failed` are what the loop has appended after visiting `visited`. */
  ghost predicate Scraped(visited: seq<string>, head: string -> Option<int>, get: string -> Option<Html.Response>,
                          all: seq<Service>, failed: seq<string>) {
    all == Pick(Scraper(head, get), visited) && failed == Pick(ScrapeFailure(head, get), visited)
  }

  /** The loop over the listed services, in list order. */
  method ScrapeEach(services: seq<string>, head: string -> Option<int>, get: string -> Option<Html.Response>)
    returns (all: seq<Service>, failed: seq<string>)
    ensures all == Pick(Scraper(head, get), services)
    ensures failed == Pick(ScrapeFailure(head, get), services)
  {
    all, failed := [], [];
    var i := 0;
    assert Scraped(services[..i], head, get, all, failed);
    while i < |services|
      invariant i <= |services|
      invariant Scraped(services[..i], head, get, all, failed)
    {
      all, failed := ScrapeNext(services, i, head, get, all, failed);
      i := i + 1;
    }
    assert services[..i] == services;
  }

  /** One turn of the loop: the record is appended to `all`, or the service name to `failed`. */
  method ScrapeNext(services: seq<string>, i: nat, head: string -> Option<int>, get: string -> Option<Html.Response>,
                    all: seq<Service>, failed: seq<string>)
    returns (all': seq<Service>, failed': seq<string>)
    requires i < |services|
    requires Scraped(services[..i], head, get, all, failed)
    ensures Scraped(services[..i + 1], head, get, all', failed')
  {
    var serviceName := services[i];
    var result := ScrapeServiceData(serviceName, head, get);
    ScrapeStep(services, i, head, get, result);
    all', failed' := all, failed;
    if result.Some? {
      all' := all + [result.value];
    } else {
      failed' := failed + [serviceName];
    }
  }

  lemma ScrapeStep(services: seq<string>, i: nat, head: string -> Option<int>, get: string -> Option<Html.Response>, result: Option<Service>)
    requires i < |services| && result == ScrapeService(services[i], head, get)
    ensures Pick(Scraper(head, get), services[..i + 1])
      == Pick(Scraper(head, get), services[..i]) + if result.Some? then [result.value] else []
    ensures Pick(ScrapeFailure(head, get), services[..i + 1])
      == Pick(ScrapeFailure(head, get), services[..i]) + if result.None? then [services[i]] else []
  {
    ScraperApply(head, get, services[i]);
    PickStep(Scraper(head, get), services, i);
    PickStep(ScrapeFailure(head, get), services, i);
  }
}
