/** The filter chain (dns_engine/filters/manager.py), each filter being a predicate on the domain. */
module DnsFilters {
  datatype Filter = Filter(name: string, blocks: string -> bool)

  /** The filters in order and which of them are switched on; an unknown name counts as off. */
  datatype Rules = Rules(filters: seq<Filter>, enabled: map<string, bool>)

  datatype Decision = Allowed | BlockedBy(name: string)

  predicate Active(rules: Rules, f: Filter) {
    f.name in rules.enabled && rules.enabled[f.name]
  }

  predicate Stops(rules: Rules, f: Filter, domain: string) {
    Active(rules, f) && f.blocks(domain)
  }

  /** No filter that is switched on blocks the domain. */
  predicate Allows(rules: Rules, domain: string) {
    forall i :: 0 <= i < |rules.filters| ==> !Stops(rules, rules.filters[i], domain)
  }

  class FilterManager {
    var filters: seq<Filter>
    var enabled: map<string, bool>

    function Now(): Rules
      reads this
    {
      Rules(filters, enabled)
    }

    constructor (filters: seq<Filter>, enabled: map<string, bool>)
      ensures Now() == Rules(filters, enabled)
    {
      this.filters, this.enabled := filters, enabled;
    }

    /** The first active filter that blocks decides; the domain is allowed when there is none. */
    method Evaluate(domain: string) returns (d: Decision)
      ensures d.Allowed? <==> Allows(Now(), domain)
      ensures d.BlockedBy? ==>
        exists i :: 0 <= i < |filters| && filters[i].name == d.name && Stops(Now(), filters[i], domain)
                    && forall j :: 0 <= j < i ==> !Stops(Now(), filters[j], domain)
    {
      for i := 0 to |filters|
        invariant forall j :: 0 <= j < i ==> !Stops(Now(), filters[j], domain)
      {
        var f := filters[i];
        if f.name !in enabled || !enabled[f.name] {
          continue;
        }
        if f.blocks(domain) {
          return BlockedBy(f.name);
        }
      }
      return Allowed;
    }

    method SetEnabled(name: string, on: bool) returns (known: bool)
      modifies this`enabled
      ensures known <==> exists i :: 0 <= i < |old(filters)| && old(filters)[i].name == name
      ensures enabled == if known then old(enabled)[name := on] else old(enabled)
    {
      var names := set i | 0 <= i < |filters| :: filters[i].name;
      known := name in names;
      if known {
        enabled := enabled[name := on];
      }
    }
  }
}
