// The JSON fetcher: every listed service's Service Reference document is fetched on a
// worker pool, mapped to a record, and the records are written sorted by service id.
module IamData {
  import opened Wrappers
  import opened Lists
  import Consolidation
  import opened ServiceReference

  /**
   * `main`: `listing` is the service list (`None` when fetching it raised, which ends the
   * script before anything is written) and `completed` the order in which the fetches finish.
   */
  method FetchAll(listing: Option<seq<ServiceInfo>>, completed: seq<ServiceInfo>, fetch: string -> Option<JsonService>,
                  lastUpdated: string)
    returns (d: Option<Consolidation.Dataset<Service>>)
    requires listing.Some? ==> multiset(completed) == multiset(listing.value)
    ensures d.Some? <==> listing.Some?
    ensures d.Some? ==> Consolidation.SortedBy(d.value.services, ServiceKey)
    ensures d.Some? ==> multiset(d.value.services) == multiset(Pick(Fetched(fetch, Plain), listing.value))
    ensures d.Some? ==> multiset(d.value.failedServices) == multiset(Pick(FetchFailure(fetch), listing.value))
    ensures d.Some? ==> d.value.totalServices == |d.value.services|
    ensures d.Some? ==>
      multiset(Map(ServiceKey, d.value.services)) + multiset(d.value.failedServices) == multiset(Map(InfoId, listing.value))
    ensures d.Some? ==> d.value.lastUpdated == lastUpdated
  {
    if listing.None? {
      return None;
    }
    var all, failed := FetchEach(completed, fetch, Plain);
    var dataset := Consolidation.Consolidate(all, failed, ServiceKey, lastUpdated);
    CompletionOrder(completed, listing.value, fetch, Plain);
    MapPermutation(ServiceKey, dataset.services, all);
    return Some(dataset);
  }
}
