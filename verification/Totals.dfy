/** SUM(...) and COUNT(*) over a table held as a map. */
module Totals {
  ghost function Total<T>(table: map<nat, T>, weight: T -> nat): nat {
    if table == map[] then 0
    else
      var id :| id in table;
      weight(table[id]) + Total(table - {id}, weight)
  }

  lemma {:induction false} TotalWithout<T>(table: map<nat, T>, weight: T -> nat, id: nat)
    requires id in table
    ensures Total(table, weight) == weight(table[id]) + Total(table - {id}, weight)
    decreases |table|
  {
    var first :| first in table && Total(table, weight) == weight(table[first]) + Total(table - {first}, weight);
    if first != id {
      TotalWithout(table - {first}, weight, id);
      TotalWithout(table - {id}, weight, first);
      assert table - {first} - {id} == table - {id} - {first};
    }
  }

  lemma TotalInsert<T>(table: map<nat, T>, weight: T -> nat, id: nat, value: T)
    requires id !in table
    ensures Total(table[id := value], weight) == Total(table, weight) + weight(value)
  {
    TotalWithout(table[id := value], weight, id);
    assert table[id := value] - {id} == table;
  }

  lemma TotalUpdate<T>(table: map<nat, T>, weight: T -> nat, id: nat, value: T)
    requires id in table
    ensures Total(table[id := value], weight) + weight(table[id]) == Total(table, weight) + weight(value)
  {
    TotalWithout(table, weight, id);
    TotalWithout(table[id := value], weight, id);
    assert table[id := value] - {id} == table - {id};
  }

  lemma {:induction false} TotalSubset<T>(small: map<nat, T>, large: map<nat, T>, weight: T -> nat)
    requires small.Keys <= large.Keys
    requires forall id :: id in small ==> small[id] == large[id]
    ensures Total(small, weight) <= Total(large, weight)
    decreases |large|
  {
    if large != map[] {
      var id :| id in large;
      TotalWithout(large, weight, id);
      if id in small {
        TotalWithout(small, weight, id);
        TotalSubset(small - {id}, large - {id}, weight);
      } else {
        TotalSubset(small, large - {id}, weight);
      }
    }
  }
}
