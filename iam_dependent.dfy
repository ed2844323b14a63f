// The fetcher that adds dependent actions: the JSON records are fetched as by the plain
// fetcher, then each record's actions are given the dependent actions listed in the last
// column of the actions table of the service's documentation page.
module IamDependent {
  import opened Wrappers
  import opened Lists
  import Text
  import Html
  import DependentPattern
  import Consolidation
  import opened ServiceReference

  /** The page name of a service: its id without dashes and underscores (no lower-casing). */
  function DocServiceName(name: string): (r: string)
    ensures '-' !in r && '_' !in r
    ensures forall c :: c in r <==> c in name && c != '-' && c != '_'
    ensures multiset(r) == multiset(name)['-' := 0]['_' := 0]
    ensures |r| <= |name|
  {
    Text.RemoveChar(Text.RemoveChar(name, '-'), '_')
  }

  /** The page name is built piece by piece: every other character keeps its place. */
  lemma DocServiceNameAppend(a: string, b: string)
    ensures DocServiceName(a + b) == DocServiceName(a) + DocServiceName(b)
  {
    Text.RemoveCharAppend(a, b, '-');
    Text.RemoveCharAppend(Text.RemoveChar(a, '-'), Text.RemoveChar(b, '-'), '_');
  }

  /** Page-name prefixes, in the order they are tried. */
  const DocPrefixes: seq<string> := ["list_", "list_aws", "list_amazon"]

  function DocUrls(name: string): (r: seq<string>)
    ensures |r| == |DocPrefixes|
    ensures forall i :: 0 <= i < |r| ==> r[i] == Html.PatternUrl(DocPrefixes[i], DocServiceName(name))
  {
    var n := DocServiceName(name);
    [Html.PatternUrl(DocPrefixes[0], n), Html.PatternUrl(DocPrefixes[1], n), Html.PatternUrl(DocPrefixes[2], n)]
  }

  /** The GET of `urls[k]` answered 200. */
  predicate OkAt(urls: seq<string>, get: string -> Option<Html.Response>, k: nat)
    requires k < |urls|
  {
    get(urls[k]).Some? && get(urls[k]).value.status == 200
  }

  /** Every GET from `urls[i]` up to `urls[k]`, excluded, answered with a status other than 200. */
  predicate Passed(urls: seq<string>, get: string -> Option<Html.Response>, i: nat, k: nat)
    requires k <= |urls|
  {
    forall j :: i <= j < k ==> get(urls[j]).Some? && get(urls[j]).value.status != 200
  }

  /**
   * The page the loop over `urls[i..]` stops at: the first answer with status 200. A GET
   * that raises ends the search with nothing, and so does running out of urls.
   */
  function FirstOkPage(urls: seq<string>, get: string -> Option<Html.Response>, i: nat): (r: Option<Html.Page>)
    requires i <= |urls|
    ensures r.Some? ==> exists k :: i <= k < |urls| && Passed(urls, get, i, k) && OkAt(urls, get, k)
                                  && r.value == get(urls[k]).value.page
    ensures r.None? ==> forall k :: i <= k < |urls| && Passed(urls, get, i, k) ==> !OkAt(urls, get, k)
    decreases |urls| - i
  {
    if i == |urls| then None
    else
      var response := get(urls[i]);
      if response.None? then None
      else if response.value.status == 200 then Some(response.value.page)
      else
        var r := FirstOkPage(urls, get, i + 1);
        assert forall k :: i + 1 <= k <= |urls| && Passed(urls, get, i + 1, k) ==> Passed(urls, get, i, k);
        r
  }

  /** The documentation page of a service, if one of the three guesses answers 200 before any GET raises. */
  method FetchDocPage(name: string, get: string -> Option<Html.Response>) returns (page: Option<Html.Page>)
    ensures page == FirstOkPage(DocUrls(name), get, 0)
  {
    var urls := DocUrls(name);
    var i := 0;
    while i < |urls|
      invariant i <= |urls|
      invariant FirstOkPage(urls, get, 0) == FirstOkPage(urls, get, i)
    {
      var response := get(urls[i]);
      if response.None? {
        return None;
      }
      if response.value.status == 200 {
        return Some(response.value.page);
      }
      i := i + 1;
    }
    return None;
  }

  /** The text of a link names a dependent action when it is not empty and holds a colon. */
  predicate IsActionLink(d: string) {
    d != [] && ':' in d
  }

  /**
   * The dependent actions of one cell: the pattern matches of its text, then each stripped
   * link text that names an action and is not in the list yet.
   */
  function MergeLinks(deps: seq<string>, texts: seq<string>): (r: seq<string>)
    ensures |deps| <= |r| <= |deps| + |texts|
    ensures r[..|deps|] == deps
  {
    if texts == [] then deps
    else
      var m := MergeLinks(deps, texts[..|texts| - 1]);
      var d := texts[|texts| - 1];
      if IsActionLink(d) && d !in m then m + [d] else m
  }

  /** A link is added only when it is not in the list yet: the additions never repeat an earlier entry. */
  lemma {:induction false} MergeLinksDistinct(deps: seq<string>, texts: seq<string>)
    ensures AddedDistinct(MergeLinks(deps, texts), |deps|)
    decreases |texts|
  {
    if texts != [] {
      var m := MergeLinks(deps, texts[..|texts| - 1]);
      var d := texts[|texts| - 1];
      MergeLinksDistinct(deps, texts[..|texts| - 1]);
      if IsActionLink(d) && d !in m {
        var r := m + [d];
        assert MergeLinks(deps, texts) == r;
        forall i, j | 0 <= i < j < |r| && |deps| <= j
          ensures r[i] != r[j]
        {
          assert r[i] == m[i] && m[i] in m;
          if j < |m| {
            assert r[j] == m[j];
          }
        }
      }
    }
  }

  /** Merging two runs of link texts is merging the first, then the second: the links are visited in order. */
  lemma {:induction false} MergeLinksAppend(deps: seq<string>, a: seq<string>, b: seq<string>)
    ensures MergeLinks(deps, a + b) == MergeLinks(MergeLinks(deps, a), b)
    decreases |b|
  {
    if b == [] {
      assert a + b == a;
    } else {
      var init := b[..|b| - 1];
      MergeLinksAppend(deps, a, init);
      assert (a + b)[..|a + b| - 1] == a + init;
      assert (a + b)[|a + b| - 1] == b[|b| - 1];
    }
  }

  /** One link text is appended exactly when it names an action and is not in the list yet. */
  lemma MergeLinksOne(deps: seq<string>, d: string)
    ensures MergeLinks(deps, [d]) == if IsActionLink(d) && d !in deps then deps + [d] else deps
  {
    assert [d][..0] == [];
  }

  /** No element from index `n` on repeats an element before it. */
  ghost predicate AddedDistinct(r: seq<string>, n: nat) {
    forall i, j :: 0 <= i < j < |r| && n <= j ==> r[i] != r[j]
  }

  /** The list holds the matches and exactly the link texts that name an action. */
  lemma {:induction false} MergeLinksMembers(deps: seq<string>, texts: seq<string>, x: string)
    ensures x in MergeLinks(deps, texts) <==> x in deps || (x in texts && IsActionLink(x))
    decreases |texts|
  {
    if texts != [] {
      var init := texts[..|texts| - 1];
      MergeLinksMembers(deps, init, x);
      assert texts == init + [texts[|texts| - 1]];
    }
  }

  /** One more turn of the loop over the links. */
  lemma MergeLinksStep(deps: seq<string>, texts: seq<string>, i: nat)
    requires i < |texts|
    ensures MergeLinks(deps, texts[..i + 1])
         == if IsActionLink(texts[i]) && texts[i] !in MergeLinks(deps, texts[..i]) then MergeLinks(deps, texts[..i]) + [texts[i]]
            else MergeLinks(deps, texts[..i])
  {
    assert texts[..i + 1][..i] == texts[..i];
  }

  /** The stripped text of every link of the cell. */
  function LinkTexts(cell: Html.Cell): seq<string> {
    Map(Text.Strip, cell.links)
  }

  function CellDependents(cell: Html.Cell): seq<string> {
    MergeLinks(DependentPattern.FindAll(Text.Strip(cell.text)), LinkTexts(cell))
  }

  /** A text is a link text of the cell exactly when it is the stripped text of one of its links. */
  lemma LinkTextsMembers(cell: Html.Cell, x: string)
    ensures x in LinkTexts(cell) <==> exists l :: l in cell.links && Text.Strip(l) == x
  {
    MapMembers(Text.Strip, cell.links, x);
  }

  /** The dependents of a cell start with its pattern matches, and no link added after them repeats an earlier entry. */
  lemma CellDependentsOrder(cell: Html.Cell)
    ensures var deps := DependentPattern.FindAll(Text.Strip(cell.text));
      && |deps| <= |CellDependents(cell)|
      && CellDependents(cell)[..|deps|] == deps
      && AddedDistinct(CellDependents(cell), |deps|)
  {
    MergeLinksDistinct(DependentPattern.FindAll(Text.Strip(cell.text)), LinkTexts(cell));
  }

  /**
   * The links are visited in order: a cell whose links are `links + [l]` has the dependents of
   * the cell with `links`, then `l`'s stripped text when it names an action not listed yet.
   */
  lemma CellDependentsLastLink(text: string, links: seq<string>, l: string)
    ensures var prev := CellDependents(Html.Cell(text, links));
      var d := Text.Strip(l);
      CellDependents(Html.Cell(text, links + [l])) == if IsActionLink(d) && d !in prev then prev + [d] else prev
  {
    var deps := DependentPattern.FindAll(Text.Strip(text));
    var texts := LinkTexts(Html.Cell(text, links));
    MapAppend(Text.Strip, links, [l]);
    assert LinkTexts(Html.Cell(text, links + [l])) == texts + [Text.Strip(l)];
    MergeLinksAppend(deps, texts, [Text.Strip(l)]);
    MergeLinksOne(MergeLinks(deps, texts), Text.Strip(l));
  }

  /** An entry is listed exactly when it is a pattern match or the stripped text of a link naming an action. */
  lemma CellDependentsMembers(cell: Html.Cell, x: string)
    ensures x in CellDependents(cell) <==>
      x in DependentPattern.FindAll(Text.Strip(cell.text)) || (IsActionLink(x) && exists l :: l in cell.links && Text.Strip(l) == x)
  {
    MergeLinksMembers(DependentPattern.FindAll(Text.Strip(cell.text)), LinkTexts(cell), x);
    LinkTextsMembers(cell, x);
  }

  /** The loop over the links of the last cell. */
  method CollectDependents(cell: Html.Cell) returns (deps: seq<string>)
    ensures deps == CellDependents(cell)
  {
    var matches := DependentPattern.CollectTokens(Text.Strip(cell.text));
    ghost var texts := LinkTexts(cell);
    deps := matches;
    var i := 0;
    while i < |cell.links|
      invariant i <= |cell.links|
      invariant deps == MergeLinks(matches, texts[..i])
    {
      var d := Text.Strip(cell.links[i]);
      MergeLinksStep(matches, texts, i);
      if IsActionLink(d) && d !in deps {
        deps := deps + [d];
      }
      i := i + 1;
    }
    assert texts[..i] == texts;
  }

  /** The tables searched: a header mentions "ependent", or there are both an "Actions" and an "Access level" header. */
  predicate IsDependentTable(headers: seq<string>) {
    (exists k :: 0 <= k < |headers| && Text.Contains(Text.Lower(headers[k]), "ependent"))
    || ("Actions" in headers && "Access level" in headers)
  }

  /**
   * A table is searched when one of its headers contains "ependent" in any mix of cases,
   * as the reference pages' "Dependent actions" header does.
   */
  lemma DependentHeaderSearched(headers: seq<string>, k: nat, sub: string)
    requires k < |headers| && Text.Contains(headers[k], sub) && Text.Lower(sub) == "ependent"
    ensures IsDependentTable(headers)
  {
    Text.LowerContains(headers[k], sub);
  }

  /** The header of the reference pages' actions tables is one such header. */
  lemma DependentActionsHeader(headers: seq<string>)
    requires "Dependent actions" in headers
    ensures IsDependentTable(headers)
  {
    var k :| 0 <= k < |headers| && headers[k] == "Dependent actions";
    var sub := "ependent";
    assert headers[k][1..][..8] == sub;
    assert Text.Contains(headers[k][1..], sub);
    assert Text.Lower(sub) == sub;
    DependentHeaderSearched(headers, k, sub);
  }

  /** One entry of `dependent_actions_map`. */
  datatype Entry = Entry(action: string, dependents: seq<string>)

  /** A row of at least five cells gives its stripped first cell and the dependents of its last cell, when there are some. */
  function RowEntry(row: Html.Row): (r: Option<Entry>)
    ensures r.Some? <==> |row| >= 5 && CellDependents(row[|row| - 1]) != []
    ensures r.Some? ==> r.value == Entry(Text.Strip(row[0].text), CellDependents(row[|row| - 1]))
  {
    if |row| >= 5 then
      var deps := CellDependents(row[|row| - 1]);
      if deps != [] then Some(Entry(Text.Strip(row[0].text), deps)) else None
    else None
  }

  /** The entries one table yields: those of its body rows when it is searched, else none. */
  function TableEntries(t: Html.Table): seq<Entry> {
    if IsDependentTable(Html.Headers(t)) then Pick(RowEntry, Html.BodyRows(t)) else []
  }

  /** The entries of a page, table by table and row by row, in document order. */
  function Entries(tables: seq<Html.Table>): seq<Entry> {
    Concat(TableEntries, tables)
  }

  /** An entry is on the page exactly when some body row of some searched table gives it. */
  lemma EntriesMembers(tables: seq<Html.Table>, e: Entry)
    ensures e in Entries(tables) <==>
      exists t :: t in tables && IsDependentTable(Html.Headers(t)) && exists row :: row in Html.BodyRows(t) && RowEntry(row) == Some(e)
  {
    ConcatMembers(TableEntries, tables, e);
    forall t | t in tables && IsDependentTable(Html.Headers(t))
      ensures e in TableEntries(t) <==> exists row :: row in Html.BodyRows(t) && RowEntry(row) == Some(e)
    {
      PickMembers(RowEntry, Html.BodyRows(t), e);
    }
  }

  /** Storing the entries into `m` one after the other. */
  function Assign(m: map<string, seq<string>>, es: seq<Entry>): map<string, seq<string>> {
    if es == [] then m
    else
      var e := es[|es| - 1];
      Assign(m, es[..|es| - 1])[e.action := e.dependents]
  }

  lemma AssignStep(m: map<string, seq<string>>, es: seq<Entry>, e: Entry)
    ensures Assign(m, es + [e]) == Assign(m, es)[e.action := e.dependents]
  {
    assert (es + [e])[..|es|] == es;
  }

  /** Storing two runs of entries is storing the first, then the second. */
  lemma {:induction false} AssignAppend(m: map<string, seq<string>>, a: seq<Entry>, b: seq<Entry>)
    ensures Assign(m, a + b) == Assign(Assign(m, a), b)
    decreases |b|
  {
    if b == [] {
      assert a + b == a;
    } else {
      var init, e := b[..|b| - 1], b[|b| - 1];
      assert a + b == (a + init) + [e];
      AssignStep(m, a + init, e);
      AssignAppend(m, a, init);
    }
  }

  /**
   * An action is in the map exactly when some entry names it, and it maps to the
   * dependents of the LAST entry that names it: later rows overwrite earlier ones.
   */
  lemma {:induction false} AssignLastWins(es: seq<Entry>, name: string)
    ensures name in Assign(map[], es) <==> exists i :: 0 <= i < |es| && es[i].action == name
    ensures name in Assign(map[], es) ==>
      exists i :: 0 <= i < |es| && es[i].action == name && Assign(map[], es)[name] == es[i].dependents
        && forall j :: i < j < |es| ==> es[j].action != name
    decreases |es|
  {
    if es != [] {
      var init, e := es[..|es| - 1], es[|es| - 1];
      AssignLastWins(init, name);
      assert forall i :: 0 <= i < |init| ==> es[i] == init[i];
      if e.action != name && name in Assign(map[], init) {
        var i :| 0 <= i < |init| && init[i].action == name && Assign(map[], init)[name] == init[i].dependents
                 && forall j :: i < j < |init| ==> init[j].action != name;
        assert forall j :: i < j < |es| ==> es[j].action != name;
      }
    }
  }

  /** Every entry of a page carries a non-empty list of dependents. */
  lemma EntriesNonEmpty(tables: seq<Html.Table>)
    ensures forall k :: 0 <= k < |Entries(tables)| ==> Entries(tables)[k].dependents != []
  {
    forall k | 0 <= k < |Entries(tables)|
      ensures Entries(tables)[k].dependents != []
    {
      EntriesMembers(tables, Entries(tables)[k]);
    }
  }

  /** No action is mapped to an empty list of dependents. */
  lemma MapValuesNonEmpty(tables: seq<Html.Table>, name: string)
    requires name in Assign(map[], Entries(tables))
    ensures Assign(map[], Entries(tables))[name] != []
  {
    AssignLastWins(Entries(tables), name);
    EntriesNonEmpty(tables);
  }

  /** `scrape_dependent_actions`: the map of the page found, or the empty map when none is. */
  function DependentMap(name: string, get: string -> Option<Html.Response>): map<string, seq<string>> {
    var page := FirstOkPage(DocUrls(name), get, 0);
    if page.None? then map[] else Assign(map[], Entries(page.value.tables))
  }

  /**
   * The map of a service: empty when no page is found; otherwise an action is a key
   * exactly when some entry of the page names it, and no key maps to an empty list.
   */
  lemma DependentMapFacts(name: string, get: string -> Option<Html.Response>, action: string)
    ensures FirstOkPage(DocUrls(name), get, 0).None? ==> DependentMap(name, get) == map[]
    ensures action in DependentMap(name, get) <==>
      && FirstOkPage(DocUrls(name), get, 0).Some?
      && exists e :: e in Entries(FirstOkPage(DocUrls(name), get, 0).value.tables) && e.action == action
    ensures action in DependentMap(name, get) ==> DependentMap(name, get)[action] != []
  {
    var page := FirstOkPage(DocUrls(name), get, 0);
    if page.Some? {
      var es := Entries(page.value.tables);
      AssignLastWins(es, action);
      if exists e :: e in es && e.action == action {
        var e :| e in es && e.action == action;
        var i :| 0 <= i < |es| && es[i] == e;
      }
      if action in DependentMap(name, get) {
        MapValuesNonEmpty(page.value.tables, action);
      }
    }
  }

  method ScrapeDependentActions(name: string, get: string -> Option<Html.Response>)
    returns (m: map<string, seq<string>>)
    ensures m == DependentMap(name, get)
  {
    var page := FetchDocPage(name, get);
    if page.None? {
      return map[];
    }
    m := ScrapeTables(page.value.tables);
  }

  /** The tables of the page, one searched table after the other. */
  lemma EntriesStep(tables: seq<Html.Table>, i: nat)
    requires i < |tables|
    ensures Entries(tables[..i + 1])
         == Entries(tables[..i]) + if IsDependentTable(Html.Headers(tables[i])) then Pick(RowEntry, Html.BodyRows(tables[i])) else []
  {
    ConcatStep(TableEntries, tables, i);
  }

  /** The loop over the tables of the page. */
  method ScrapeTables(tables: seq<Html.Table>) returns (m: map<string, seq<string>>)
    ensures m == Assign(map[], Entries(tables))
  {
    m := map[];
    var i := 0;
    while i < |tables|
      invariant i <= |tables|
      invariant m == Assign(map[], Entries(tables[..i]))
    {
      EntriesStep(tables, i);
      var headers := Html.Headers(tables[i]);
      if IsDependentTable(headers) {
        var rows := Html.BodyRows(tables[i]);
        assert Entries(tables[..i + 1]) == Entries(tables[..i]) + Pick(RowEntry, rows);
        AssignAppend(map[], Entries(tables[..i]), Pick(RowEntry, rows));
        m := ScrapeRows(m, rows);
        assert m == Assign(map[], Entries(tables[..i + 1]));
      } else {
        assert Entries(tables[..i]) + [] == Entries(tables[..i]);
        assert Entries(tables[..i + 1]) == Entries(tables[..i]);
      }
      i := i + 1;
    }
    assert tables[..i] == tables;
  }

  /** The loop over the body rows of one searched table. */
  method ScrapeRows(m0: map<string, seq<string>>, rows: seq<Html.Row>) returns (m: map<string, seq<string>>)
    ensures m == Assign(m0, Pick(RowEntry, rows))
  {
    m := m0;
    var j := 0;
    while j < |rows|
      invariant j <= |rows|
      invariant m == Assign(m0, Pick(RowEntry, rows[..j]))
    {
      PickStep(RowEntry, rows, j);
      var entry := ScrapeRow(rows[j]);
      if entry.Some? {
        assert Pick(RowEntry, rows[..j + 1]) == Pick(RowEntry, rows[..j]) + [entry.value];
        AssignStep(m0, Pick(RowEntry, rows[..j]), entry.value);
        m := m[entry.value.action := entry.value.dependents];
      } else {
        assert Pick(RowEntry, rows[..j + 1]) == Pick(RowEntry, rows[..j]);
      }
      j := j + 1;
    }
    assert rows[..j] == rows;
  }

  /** One row: its entry, when it has at least five cells and its last cell names dependents. */
  method ScrapeRow(cells: Html.Row) returns (entry: Option<Entry>)
    ensures entry == RowEntry(cells)
  {
    entry := None;
    if |cells| >= 5 {
      var actionName := Text.Strip(cells[0].text);
      var deps := CollectDependents(cells[|cells| - 1]);
      if deps != [] {
        entry := Some(Entry(actionName, deps));
      }
    }
  }

  /** An action named in the map gets the mapped list; every other action keeps its own. */
  function EnrichAction(a: Action, m: map<string, seq<string>>): (r: Action)
    ensures r.(dependentActions := a.dependentActions) == a
    ensures r.dependentActions == if a.name.Some? && a.name.value in m then Some(m[a.name.value]) else a.dependentActions
  {
    if a.name.Some? && a.name.value in m then a.(dependentActions := Some(m[a.name.value])) else a
  }

  function ActionEnricher(m: map<string, seq<string>>): Action -> Action {
    (a: Action) => EnrichAction(a, m)
  }

  /** The record with its actions updated from the map; nothing but `dependentActions` changes. */
  function Enrich(s: Service, m: map<string, seq<string>>): (r: Service)
    ensures r.service == s.service && r.name == s.name
    ensures r.resources == s.resources && r.conditionKeys == s.conditionKeys
    ensures |r.actions| == |s.actions|
    ensures forall k :: 0 <= k < |r.actions| ==> r.actions[k] == EnrichAction(s.actions[k], m)
  {
    s.(actions := Map(ActionEnricher(m), s.actions))
  }

  /** The update loop over a record's actions. */
  method MergeDependents(s: Service, m: map<string, seq<string>>) returns (r: Service)
    ensures r == Enrich(s, m)
  {
    var actions := [];
    var i := 0;
    while i < |s.actions|
      invariant i <= |s.actions|
      invariant actions == Map(ActionEnricher(m), s.actions[..i])
    {
      MapStep(ActionEnricher(m), s.actions, i);
      var action := s.actions[i];
      if action.name.Some? && action.name.value in m {
        action := action.(dependentActions := Some(m[action.name.value]));
      }
      actions := actions + [action];
      i := i + 1;
    }
    assert s.actions[..i] == s.actions;
    r := s.(actions := actions);
  }

  function Enricher(get: string -> Option<Html.Response>): Service -> Service {
    (s: Service) => Enrich(s, DependentMap(s.service, get))
  }

  /** The second phase, over the fetched records in the order they were collected. */
  method EnrichEach(all: seq<Service>, get: string -> Option<Html.Response>) returns (enriched: seq<Service>)
    ensures enriched == Map(Enricher(get), all)
  {
    enriched := [];
    var i := 0;
    while i < |all|
      invariant i <= |all|
      invariant enriched == Map(Enricher(get), all[..i])
    {
      MapStep(Enricher(get), all, i);
      var m := ScrapeDependentActions(all[i].service, get);
      var s := MergeDependents(all[i], m);
      enriched := enriched + [s];
      i := i + 1;
    }
    assert all[..i] == all;
  }

  /** The service ids are those of the fetched records: enriching keeps every id. */
  lemma EnrichKeepsKeys(all: seq<Service>, get: string -> Option<Html.Response>)
    ensures Map(ServiceKey, Map(Enricher(get), all)) == Map(ServiceKey, all)
  {
  }

  /**
   * After enrichment every action of a fetched record carries a list of dependent actions:
   * the non-empty list the page maps its name to, or else the empty list it was fetched with.
   */
  lemma EnrichedActions(info: ServiceInfo, doc: JsonService, get: string -> Option<Html.Response>, k: nat)
    requires k < |doc.actions.GetOr([])|
    ensures var a := Enricher(get)(Process(info, doc, WithDependents)).actions[k];
      var m := DependentMap(info.service, get);
      a.dependentActions.Some?
      && (a.name.Some? && a.name.value in m ==> a.dependentActions.value == m[a.name.value] != [])
      && (a.name.None? || a.name.value !in m ==> a.dependentActions.value == [])
  {
    var a := Enricher(get)(Process(info, doc, WithDependents)).actions[k];
    var page := FirstOkPage(DocUrls(info.service), get, 0);
    if page.Some? && a.name.Some? && a.name.value in DependentMap(info.service, get) {
      MapValuesNonEmpty(page.value.tables, a.name.value);
    }
  }

  /**
   * `main`: the JSON records are collected as the fetches complete, enriched in that
   * order, and written sorted by service id.
   */
  method FetchAllWithDependents(listing: Option<seq<ServiceInfo>>, completed: seq<ServiceInfo>,
                                fetch: string -> Option<JsonService>, get: string -> Option<Html.Response>,
                                lastUpdated: string)
    returns (d: Option<Consolidation.Dataset<Service>>)
    requires listing.Some? ==> multiset(completed) == multiset(listing.value)
    ensures d.Some? <==> listing.Some?
    ensures d.Some? ==> Consolidation.SortedBy(d.value.services, ServiceKey)
    ensures d.Some? ==>
      multiset(d.value.services) == multiset(Map(Enricher(get), Pick(Fetched(fetch, WithDependents), listing.value)))
    ensures d.Some? ==> multiset(d.value.failedServices) == multiset(Pick(FetchFailure(fetch), listing.value))
    ensures d.Some? ==> d.value.totalServices == |d.value.services|
    ensures d.Some? ==>
      multiset(Map(ServiceKey, d.value.services)) + multiset(d.value.failedServices) == multiset(Map(InfoId, listing.value))
    ensures d.Some? ==> d.value.lastUpdated == lastUpdated
  {
    if listing.None? {
      return None;
    }
    var all, failed := FetchEach(completed, fetch, WithDependents);
    var enriched := EnrichEach(all, get);
    var dataset := Consolidation.Consolidate(enriched, failed, ServiceKey, lastUpdated);
    CompletionOrder(completed, listing.value, fetch, WithDependents);
    EnrichKeepsKeys(all, get);
    MapPermutation(ServiceKey, dataset.services, enriched);
    MapPermutation(Enricher(get), all, Pick(Fetched(fetch, WithDependents), listing.value));
    return Some(dataset);
  }
}
