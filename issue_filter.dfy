/** The filter bar: a map from the three filter keys to the value picked in
    each drop-down, reported to the page after every change. */
module IssueFilter {
  import opened Types

  datatype FilterKey = StatusKey | PriorityKey | CategoryKey

  /** A key mapped to None is a key present with the value `undefined`. */
  type Filters = map<FilterKey, Option<string>>

  ghost predicate NoUndefined(m: Filters) {
    forall k :: k in m ==> m[k].Some?
  }

  /** The map with its `undefined` entries deleted. */
  ghost function WithoutUndefined(m: Filters): Filters {
    map k | k in m && m[k].Some? :: m[k]
  }

  /** On a map without `undefined` entries, setting a key to a value maps it
      to that value, setting it to `undefined` removes it, and no other key
      changes either way. */
  lemma FilterChangeOnCleanMap(m: Filters, key: FilterKey, value: Option<string>)
    requires NoUndefined(m)
    ensures NoUndefined(WithoutUndefined(m[key := value]))
    ensures WithoutUndefined(m[key := value]) == if value.Some? then m[key := value] else m - {key}
  {
  }

  class IssueFilterBar {
    var filters: Filters

    ghost predicate Valid()
      reads this
    {
      NoUndefined(filters)
    }

    constructor ()
      ensures Valid() && filters == map[]
    {
      filters := map[];
    }

    /** Sets the key, deletes every key whose value is `undefined`, and
        reports the very map that becomes the new state. */
    method HandleFilterChange(key: FilterKey, value: Option<string>) returns (reported: Filters)
      modifies this
      ensures filters == WithoutUndefined(old(filters)[key := value])
      ensures Valid()
      ensures reported == filters
    {
      var newFilters := filters[key := value];
      ghost var start := newFilters;
      var keys := newFilters.Keys;
      while keys != {}
        invariant keys <= start.Keys
        invariant newFilters == map k | k in start && (k in keys || start[k].Some?) :: start[k]
        decreases keys
      {
        var k :| k in keys;
        if newFilters[k].None? {
          newFilters := newFilters - {k};
        }
        keys := keys - {k};
      }
      filters := newFilters;
      reported := newFilters;
    }

    method ClearFilters() returns (reported: Filters)
      modifies this
      ensures Valid()
      ensures filters == map[] && reported == map[]
    {
      filters := map[];
      reported := map[];
    }
  }
}
