/** The durable tables mirror the memory of the order manager, row by row. */
module Durable {
  import opened Types
  import opened Lifecycle
  import opened Agreement

  ghost predicate OrdersTable(table: map<OrderId, Order>, orders: Orders) {
    table.Keys == orders.Keys && forall id | id in orders :: table[id] == OrderRow(orders[id])
  }

  /** Event ids are 1, 2, 3, ... in log order, and the table holds exactly these rows. */
  ghost predicate EventsTable(table: map<nat, OrderEvent>, events: seq<OrderEvent>) {
    && (forall k | k in table :: 1 <= k <= |events|)
    && (forall k | 0 <= k < |events| :: events[k].eventId == k + 1)
    && (forall k: nat | 1 <= k <= |events| :: k in table && table[k] == EventRow(events[k - 1]))
  }

  ghost predicate ExecutionsTable(table: map<ExecutionId, Types.Fill>, executions: seq<Types.Fill>) {
    && (forall k | k in table :: 1 <= k <= |executions|)
    && (forall k | 0 <= k < |executions| :: executions[k].executionId == k + 1)
    && (forall k: nat | 1 <= k <= |executions| :: k in table && table[k] == ExecutionRow(executions[k - 1]))
  }

  ghost predicate Mirrored(s: Oms) {
    && OrdersTable(s.tables.orders, s.orders)
    && EventsTable(s.tables.events, s.events)
    && ExecutionsTable(s.tables.executions, s.executions)
    && s.nextEventId == |s.events| + 1
  }

  /** Logging never meets a duplicate key, so no event row is ever lost. */
  lemma AppendEventIsMirrored(s: Oms, id: OrderId, eventType: EventType, detail: string)
    requires EventsTable(s.tables.events, s.events) && s.nextEventId == |s.events| + 1
    ensures var s' := AppendEvent(s, id, eventType, detail);
            && EventsTable(s'.tables.events, s'.events) && s'.nextEventId == |s'.events| + 1
            && s'.events == s.events + [OrderEvent(s.nextEventId, id, eventType, detail)]
            && s'.tables.orders == s.tables.orders && s'.tables.executions == s.tables.executions
  {
    assert s.nextEventId !in s.tables.events;
  }

  lemma SaveOrderIsMirrored(table: map<OrderId, Order>, orders: Orders, o: Order)
    requires OrdersTable(table, orders)
    ensures OrdersTable(table[o.internalId := OrderRow(o)], orders[o.internalId := o])
  {}

  lemma SaveExecutionIsMirrored(table: map<ExecutionId, Types.Fill>, executions: seq<Types.Fill>, f: Types.Fill)
    requires ExecutionsTable(table, executions) && f.executionId == |executions| + 1
    ensures ExecutionsTable(table[f.executionId := ExecutionRow(f)], executions + [f])
  {}

  // ---------- Reading a table back in key order ----------

  /** A sequence whose keys increase, read back from a table of its elements, is that sequence. */
  lemma {:induction false} SortedRowsOf<V>(table: map<nat, V>, keys: seq<nat>)
    requires forall i, j | 0 <= i < j < |keys| :: keys[i] < keys[j]
    requires forall k | k in table :: k in keys
    requires forall i | 0 <= i < |keys| :: keys[i] in table
    ensures |SortedRows(table)| == |keys|
    ensures forall i | 0 <= i < |keys| :: SortedRows(table)[i] == table[keys[i]]
    decreases |keys|
  {
    hide SortedRows;
    if keys == [] {
      SortedRowsEmpty(table);
    } else {
      FirstKey(table, keys);
      SortedRowsUnfold(table, keys[0]);
      TailKeys(table, keys);
      var rest := keys[1..];
      SortedRowsOf(table - {keys[0]}, rest);
      RowsCons(table, keys, SortedRows(table - {keys[0]}));
    }
  }

  lemma SortedRowsEmpty<V>(table: map<nat, V>)
    requires forall k :: k !in table
    ensures SortedRows(table) == []
  {
    assert table.Keys == {};
  }

  lemma RowsCons<V>(table: map<nat, V>, keys: seq<nat>, rows: seq<V>)
    requires |keys| > 0 && |rows| == |keys| - 1 && forall i | 0 <= i < |keys| :: keys[i] in table
    requires forall i | 0 <= i < |keys| - 1 :: keys[1..][i] in table - {keys[0]} && rows[i] == (table - {keys[0]})[keys[1..][i]]
    ensures forall i | 0 <= i < |keys| :: ([table[keys[0]]] + rows)[i] == table[keys[i]]
  {
    forall i | 0 <= i < |keys| ensures ([table[keys[0]]] + rows)[i] == table[keys[i]] {
      if i > 0 { assert keys[1..][i - 1] == keys[i]; }
    }
  }

  lemma FirstKey<V>(table: map<nat, V>, keys: seq<nat>)
    requires |keys| > 0
    requires forall i, j | 0 <= i < j < |keys| :: keys[i] < keys[j]
    requires forall k | k in table :: k in keys
    requires keys[0] in table
    ensures |table.Keys| > 0 && LeastKey(table.Keys) == keys[0]
  {
    assert keys[0] in table.Keys;
    LeastKeyIsFirst(table.Keys, keys);
  }

  lemma SortedRowsUnfold<V>(table: map<nat, V>, k: nat)
    requires |table.Keys| > 0 && k == LeastKey(table.Keys)
    ensures SortedRows(table) == [table[k]] + SortedRows(table - {k})
  {}

  lemma LeastKeyIsFirst(table: set<nat>, keys: seq<nat>)
    requires |keys| > 0 && |table| > 0
    requires forall i, j | 0 <= i < j < |keys| :: keys[i] < keys[j]
    requires forall k | k in table :: k in keys
    requires keys[0] in table
    ensures LeastKey(table) == keys[0]
  {
    var i :| 0 <= i < |keys| && keys[i] == LeastKey(table);
  }

  lemma TailKeys<V>(table: map<nat, V>, keys: seq<nat>)
    requires |keys| > 0
    requires forall i, j | 0 <= i < j < |keys| :: keys[i] < keys[j]
    requires forall k | k in table :: k in keys
    ensures forall i, j | 0 <= i < j < |keys[1..]| :: keys[1..][i] < keys[1..][j]
    ensures forall k | k in table - {keys[0]} :: k in keys[1..]
    ensures (forall i | 0 <= i < |keys| :: keys[i] in table) ==> forall i | 0 <= i < |keys[1..]| :: keys[1..][i] in table - {keys[0]}
  {
    forall x | x in table - {keys[0]} ensures x in keys[1..] {
      var i :| 0 <= i < |keys| && keys[i] == x;
      assert keys[1..][i - 1] == x;
    }
  }

  /** The numbers 1 to `n`. */
  function OneTo(n: nat): (s: seq<nat>)
    ensures |s| == n && forall i | 0 <= i < n :: s[i] == i + 1
  {
    seq(n, i requires 0 <= i => i + 1)
  }

  lemma SortedEvents(table: map<nat, OrderEvent>, events: seq<OrderEvent>)
    requires EventsTable(table, events)
    ensures |SortedRows(table)| == |events|
    ensures forall k | 0 <= k < |events| :: SortedRows(table)[k] == EventRow(events[k])
  {
    hide SortedRows;
    var keys := OneTo(|events|);
    forall k | k in table ensures k in keys { assert keys[k - 1] == k; }
    SortedRowsOf(table, keys);
  }

  lemma SortedExecutions(table: map<ExecutionId, Types.Fill>, executions: seq<Types.Fill>)
    requires ExecutionsTable(table, executions)
    ensures |SortedRows(table)| == |executions|
    ensures forall k | 0 <= k < |executions| :: SortedRows(table)[k] == ExecutionRow(executions[k])
  {
    hide SortedRows;
    var keys := OneTo(|executions|);
    forall k | k in table ensures k in keys { assert keys[k - 1] == k; }
    SortedRowsOf(table, keys);
  }

  /** Order ids are 1 to `n - 1`: none is skipped, none is reused. */
  ghost predicate IdsAreDense(orders: Orders, n: OrderId) {
    n >= 1 && forall id: OrderId :: id in orders <==> 1 <= id < n
  }

  lemma SortedOrders(table: map<OrderId, Order>, orders: Orders, n: OrderId)
    requires OrdersTable(table, orders) && IdsAreDense(orders, n)
    ensures |SortedRows(table)| == n - 1
    ensures forall k | 0 <= k < n - 1 :: SortedRows(table)[k] == OrderRow(orders[k + 1])
  {
    hide SortedRows;
    var keys := OneTo(n - 1);
    forall k | k in table ensures k in keys { assert keys[k - 1] == k; }
    SortedRowsOf(table, keys);
  }
}
