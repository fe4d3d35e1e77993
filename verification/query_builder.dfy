/**
 * The SQL query builder: a builder object that collects the selected fields, the conditions,
 * the ordering, the limit and the offset, and assembles SELECT, INSERT, UPDATE and DELETE
 * statements with `?` placeholders and their parameter lists. Running the statements is the
 * database's business and is not modelled; the statements and parameters are the results.
 */
module QueryBuilder {
  import opened Wrappers
  import opened Text

  /** A parameter value; a `whereIn` condition carries the list of its values. */
  datatype Value = Atom(text: string) | Many(items: seq<Value>)

  datatype Condition = Condition(field: string, operator: string, value: Value)

  datatype Direction = ASC | DESC

  datatype Order = Order(field: string, direction: Direction)

  /** The argument of `select`: one field name or an array of them. */
  datatype Fields = Single(name: string) | List(names: seq<string>)

  /** A statement and its parameters. */
  datatype Query = Query(sql: string, params: seq<Value>)

  // ---------------------------------------------------------------------------------------------
  // Placeholders

  /** The number of `?` in a text. */
  function Marks(s: string): nat
    decreases |s|
  {
    if |s| == 0 then 0 else (if s[0] == '?' then 1 else 0) + Marks(s[1..])
  }

  lemma {:induction false} MarksAppend(a: string, b: string)
    ensures Marks(a + b) == Marks(a) + Marks(b)
    decreases |a|
  {
    if |a| > 0 {
      var ab := a + b;
      assert ab[0] == a[0] && ab[1..] == a[1..] + b;
      MarksAppend(a[1..], b);
      assert Marks(ab) == (if ab[0] == '?' then 1 else 0) + Marks(ab[1..]);
    } else {
      assert a + b == b;
    }
  }

  lemma {:induction false} NoMarks(s: string)
    requires '?' !in s
    ensures Marks(s) == 0
    decreases |s|
  {
    if |s| > 0 {
      NoMarks(s[1..]);
    }
  }

  /** The total number of `?` in a list of texts. */
  function MarksOfAll(parts: seq<string>): nat
    decreases |parts|
  {
    if |parts| == 0 then 0 else Marks(parts[0]) + MarksOfAll(parts[1..])
  }

  /** Joining with a separator free of `?` adds no placeholder. */
  lemma {:induction false} MarksJoin(parts: seq<string>, sep: string)
    requires '?' !in sep
    ensures Marks(Join(parts, sep)) == MarksOfAll(parts)
    decreases |parts|
  {
    if |parts| > 1 {
      MarksJoin(parts[1..], sep);
      MarksAppend(parts[0] + sep, Join(parts[1..], sep));
      MarksAppend(parts[0], sep);
      NoMarks(sep);
    }
  }

  /** `n` copies of `?`. */
  function Questions(n: nat): (r: seq<string>)
    ensures |r| == n && forall k :: 0 <= k < n ==> r[k] == "?"
  {
    seq(n, k => "?")
  }

  lemma {:induction false} MarksOfQuestions(n: nat)
    ensures MarksOfAll(Questions(n)) == n
    decreases n
  {
    if n > 0 {
      assert Questions(n)[1..] == Questions(n - 1);
      MarksOfQuestions(n - 1);
    }
  }

  /** The operator `whereIn` stores: `IN (?, ?, …)`, one placeholder per value. */
  function InOperator(n: nat): string
  {
    "IN (" + Join(Questions(n), ", ") + ")"
  }

  lemma InOperatorMarks(n: nat)
    ensures Marks(InOperator(n)) == n
    ensures Contains(InOperator(n), "IN")
  {
    MarksOfQuestions(n);
    MarksJoin(Questions(n), ", ");
    MarksAppend("IN (" + Join(Questions(n), ", "), ")");
    MarksAppend("IN (", Join(Questions(n), ", "));
    NoMarks("IN (");
    NoMarks(")");
  }

  // ---------------------------------------------------------------------------------------------
  // The SELECT statement

  /** An operator is treated as a list condition when it mentions `IN`. */
  predicate IsIn(c: Condition)
  {
    Contains(c.operator, "IN")
  }

  /** A condition's text in a SELECT. */
  function Clause(c: Condition): string
  {
    if IsIn(c) then c.field + " " + c.operator else c.field + " " + c.operator + " ?"
  }

  /** A condition's parameters in a SELECT: a list condition contributes all its values. */
  function ParamsOf(c: Condition): seq<Value>
  {
    if IsIn(c) then (if c.value.Many? then c.value.items else [c.value]) else [c.value]
  }

  function Clauses(conds: seq<Condition>): (r: seq<string>)
    ensures |r| == |conds| && forall k :: 0 <= k < |conds| ==> r[k] == Clause(conds[k])
  {
    seq(|conds|, k requires 0 <= k < |conds| => Clause(conds[k]))
  }

  /** The parameters of a SELECT: those of each condition, in condition order. */
  function SelectParams(conds: seq<Condition>): seq<Value>
    decreases |conds|
  {
    if |conds| == 0 then [] else SelectParams(conds[..|conds| - 1]) + ParamsOf(conds[|conds| - 1])
  }

  function WhereSql(clauses: seq<string>): string
  {
    if |clauses| > 0 then " WHERE " + Join(clauses, " AND ") else ""
  }

  function OrderText(o: Order): string
  {
    o.field + (if o.direction == ASC then " ASC" else " DESC")
  }

  function OrderSql(orders: seq<Order>): string
  {
    if |orders| > 0 then " ORDER BY " + Join(seq(|orders|, k requires 0 <= k < |orders| => OrderText(orders[k])), ", ")
    else ""
  }

  function NumberSql(keyword: string, n: Option<int>): string
  {
    if n.Some? then keyword + IntToString(n.value) else ""
  }

  /** SELECT … FROM, then WHERE, ORDER BY, LIMIT and OFFSET, each only when set. */
  function SelectSql(fields: seq<string>, table: string, conds: seq<Condition>, orders: seq<Order>,
                     limit: Option<int>, offset: Option<int>): string
  {
    SelectHead(fields, table) + WhereSql(Clauses(conds)) + OrderSql(orders)
      + NumberSql(" LIMIT ", limit) + NumberSql(" OFFSET ", offset)
  }

  /** A condition as the builder makes it: by `where` with an operator that is not a list, or by `whereIn`. */
  predicate WellFormed(c: Condition)
  {
    && '?' !in c.field
    && (if c.value.Many? && c.operator == InOperator(|c.value.items|) then true
        else !IsIn(c) && '?' !in c.operator)
  }

  lemma ClauseMarks(c: Condition)
    requires WellFormed(c)
    ensures Marks(Clause(c)) == |ParamsOf(c)|
  {
    NoMarks(c.field);
    NoMarks(" ");
    MarksAppend(c.field, " ");
    if c.value.Many? && c.operator == InOperator(|c.value.items|) {
      InOperatorMarks(|c.value.items|);
      MarksAppend(c.field + " ", c.operator);
    } else {
      NoMarks(c.operator);
      MarksAppend(c.field + " ", c.operator);
      MarksAppend(c.field + " " + c.operator, " ?");
    }
  }

  lemma {:induction false} ClausesMarks(conds: seq<Condition>)
    requires forall k :: 0 <= k < |conds| ==> WellFormed(conds[k])
    ensures MarksOfAll(Clauses(conds)) == |SelectParams(conds)|
    decreases |conds|
  {
    if |conds| > 0 {
      assert Clauses(conds)[1..] == Clauses(conds[1..]);
      ClausesMarks(conds[1..]);
      ClauseMarks(conds[0]);
      ParamsFront(conds);
    }
  }

  /** The parameters of a SELECT, read from the first condition on. */
  lemma {:induction false} ParamsFront(conds: seq<Condition>)
    requires |conds| > 0
    ensures SelectParams(conds) == ParamsOf(conds[0]) + SelectParams(conds[1..])
    decreases |conds|
  {
    if |conds| > 1 {
      var init := conds[..|conds| - 1];
      ParamsFront(init);
      assert init[1..] == conds[1..][..|conds[1..]| - 1];
      assert init[0] == conds[0];
    } else {
      assert conds[..0] == [];
    }
  }

  lemma NumberSqlMarks(keyword: string, n: Option<int>)
    requires '?' !in keyword
    ensures Marks(NumberSql(keyword, n)) == 0
  {
    if n.Some? {
      var digits := NatToString(if n.value < 0 then -n.value else n.value);
      assert '?' !in digits;
      NoMarks(keyword + IntToString(n.value));
    }
  }

  lemma OrderSqlMarks(orders: seq<Order>)
    requires forall k :: 0 <= k < |orders| ==> '?' !in orders[k].field
    ensures Marks(OrderSql(orders)) == 0
  {
    if |orders| > 0 {
      var texts := seq(|orders|, k requires 0 <= k < |orders| => OrderText(orders[k]));
      forall k | 0 <= k < |orders| ensures '?' !in texts[k] {
        assert texts[k] == orders[k].field + (if orders[k].direction == ASC then " ASC" else " DESC");
      }
      NoMarks(" ORDER BY " + Join(texts, ", ")) by {
        JoinNoMarks(texts, ", ");
      }
    }
  }

  lemma {:induction false} JoinNoMarks(parts: seq<string>, sep: string)
    requires '?' !in sep && forall k :: 0 <= k < |parts| ==> '?' !in parts[k]
    ensures '?' !in Join(parts, sep)
    decreases |parts|
  {
    if |parts| > 1 {
      JoinNoMarks(parts[1..], sep);
    }
  }

  function SelectHead(fields: seq<string>, table: string): string
  {
    "SELECT " + Join(fields, ", ") + " FROM " + table
  }

  lemma HeadMarks(fields: seq<string>, table: string)
    requires forall k :: 0 <= k < |fields| ==> '?' !in fields[k]
    requires '?' !in table
    ensures Marks(SelectHead(fields, table)) == 0
  {
    JoinNoMarks(fields, ", ");
    NoMarks(SelectHead(fields, table));
  }

  lemma WhereMarks(conds: seq<Condition>)
    requires forall k :: 0 <= k < |conds| ==> WellFormed(conds[k])
    ensures Marks(WhereSql(Clauses(conds))) == |SelectParams(conds)|
  {
    ClausesMarks(conds);
    if |conds| > 0 {
      MarksJoin(Clauses(conds), " AND ");
      MarksAppend(" WHERE ", Join(Clauses(conds), " AND "));
      NoMarks(" WHERE ");
    }
  }

  lemma MarksAppend5(a: string, b: string, c: string, d: string, e: string)
    ensures Marks(a + b + c + d + e) == Marks(a) + Marks(b) + Marks(c) + Marks(d) + Marks(e)
  {
    MarksAppend(a, b);
    MarksAppend(a + b, c);
    MarksAppend(a + b + c, d);
    MarksAppend(a + b + c + d, e);
  }

  /**
   * When no name holds a `?` and every condition comes from `where` or `whereIn`, a SELECT has
   * exactly as many placeholders as parameters.
   */
  lemma SelectPlaceholders(fields: seq<string>, table: string, conds: seq<Condition>, orders: seq<Order>,
                           limit: Option<int>, offset: Option<int>)
    requires forall k :: 0 <= k < |fields| ==> '?' !in fields[k]
    requires '?' !in table
    requires forall k :: 0 <= k < |conds| ==> WellFormed(conds[k])
    requires forall k :: 0 <= k < |orders| ==> '?' !in orders[k].field
    ensures Marks(SelectSql(fields, table, conds, orders, limit, offset)) == |SelectParams(conds)|
  {
    HeadMarks(fields, table);
    WhereMarks(conds);
    OrderSqlMarks(orders);
    NumberSqlMarks(" LIMIT ", limit);
    NumberSqlMarks(" OFFSET ", offset);
    MarksAppend5(SelectHead(fields, table), WhereSql(Clauses(conds)), OrderSql(orders),
                 NumberSql(" LIMIT ", limit), NumberSql(" OFFSET ", offset));
  }

  // ---------------------------------------------------------------------------------------------
  // INSERT, UPDATE and DELETE

  function KeysOf(data: seq<(string, Value)>): (r: seq<string>)
    ensures |r| == |data| && forall k :: 0 <= k < |data| ==> r[k] == data[k].0
  {
    seq(|data|, k requires 0 <= k < |data| => data[k].0)
  }

  function ValuesOf(data: seq<(string, Value)>): (r: seq<Value>)
    ensures |r| == |data| && forall k :: 0 <= k < |data| ==> r[k] == data[k].1
  {
    seq(|data|, k requires 0 <= k < |data| => data[k].1)
  }

  /** The text of a condition in UPDATE and DELETE: always one placeholder, list or not. */
  function PlainClause(c: Condition): string
  {
    c.field + " " + c.operator + " ?"
  }

  function PlainClauses(conds: seq<Condition>): (r: seq<string>)
    ensures |r| == |conds| && forall k :: 0 <= k < |conds| ==> r[k] == PlainClause(conds[k])
  {
    seq(|conds|, k requires 0 <= k < |conds| => PlainClause(conds[k]))
  }

  function PlainWhere(conds: seq<Condition>): string
  {
    if |conds| > 0 then " WHERE " + Join(PlainClauses(conds), " AND ") else ""
  }

  /** The SET part of an UPDATE: `key = ?` per key, in key order. */
  function SetClause(data: seq<(string, Value)>): string
  {
    Join(seq(|data|, k requires 0 <= k < |data| => data[k].0 + " = ?"), ", ")
  }

  /** UPDATE and DELETE pass each condition's value as one parameter. */
  function PlainParams(conds: seq<Condition>): (r: seq<Value>)
    ensures |r| == |conds| && forall k :: 0 <= k < |conds| ==> r[k] == conds[k].value
  {
    seq(|conds|, k requires 0 <= k < |conds| => conds[k].value)
  }

  /** An insert: one placeholder per key, in key order, and the values as parameters. */
  function InsertQuery(table: string, data: seq<(string, Value)>): Query
  {
    Query("INSERT INTO " + table + " (" + Join(KeysOf(data), ", ") + ") VALUES (" + Join(Questions(|data|), ", ") + ")",
          ValuesOf(data))
  }

  lemma InsertPlaceholders(table: string, data: seq<(string, Value)>)
    requires '?' !in table && forall k :: 0 <= k < |data| ==> '?' !in data[k].0
    ensures Marks(InsertQuery(table, data).sql) == |InsertQuery(table, data).params|
  {
    var head := "INSERT INTO " + table + " (" + Join(KeysOf(data), ", ") + ") VALUES (";
    JoinNoMarks(KeysOf(data), ", ");
    NoMarks(head);
    MarksOfQuestions(|data|);
    MarksJoin(Questions(|data|), ", ");
    MarksAppend(head, Join(Questions(|data|), ", "));
    MarksAppend(head + Join(Questions(|data|), ", "), ")");
    NoMarks(")");
  }

  /**
   * A list condition in an UPDATE is written as `field IN (?, …) ?` and passes its list as one
   * parameter: with a two-value list, the statement has three placeholders and one parameter.
   */
  lemma UpdateListCondition(field: string, a: Value, b: Value)
    requires '?' !in field
    ensures Marks(PlainClause(Condition(field, InOperator(2), Many([a, b])))) == 3
    ensures PlainParams([Condition(field, InOperator(2), Many([a, b]))]) == [Many([a, b])]
  {
    InOperatorMarks(2);
    NoMarks(field);
    NoMarks(" ");
    MarksAppend(field, " ");
    MarksAppend(field + " ", InOperator(2));
    MarksAppend(field + " " + InOperator(2), " ?");
  }

  /** The walk of `buildSelectQuery` over the conditions, collecting clauses and parameters. */
  method CollectConditions(conds: seq<Condition>) returns (clauses: seq<string>, params: seq<Value>)
    ensures clauses == Clauses(conds) && params == SelectParams(conds)
  {
    clauses := [];
    params := [];
    var i := 0;
    while i < |conds|
      invariant 0 <= i <= |conds|
      invariant clauses == Clauses(conds[..i])
      invariant params == SelectParams(conds[..i])
    {
      var c := conds[i];
      CollectStep(conds, i);
      if IsIn(c) {
        params := params + (if c.value.Many? then c.value.items else [c.value]);
        clauses := clauses + [c.field + " " + c.operator];
      } else {
        params := params + [c.value];
        clauses := clauses + [c.field + " " + c.operator + " ?"];
      }
      i := i + 1;
    }
    assert conds[..i] == conds;
  }

  /** One more condition adds its clause and its parameters at the end. */
  lemma CollectStep(conds: seq<Condition>, i: nat)
    requires i < |conds|
    ensures Clauses(conds[..i + 1]) == Clauses(conds[..i]) + [Clause(conds[i])]
    ensures SelectParams(conds[..i + 1]) == SelectParams(conds[..i]) + ParamsOf(conds[i])
  {
    assert conds[..i + 1][..i] == conds[..i];
  }

  // ---------------------------------------------------------------------------------------------
  // The builder

  class Builder {
    const table: string
    var selectFields: seq<string>
    var conditions: seq<Condition>
    var orders: seq<Order>
    var limitValue: Option<int>
    var offsetValue: Option<int>

    /** A new builder selects `*` from the table, with no condition, order, limit or offset. */
    constructor (table: string)
      ensures this.table == table && selectFields == ["*"] && conditions == [] && orders == []
      ensures limitValue.None? && offsetValue.None?
    {
      this.table := table;
      selectFields := ["*"];
      conditions := [];
      orders := [];
      limitValue := None;
      offsetValue := None;
    }

    /** A single field name becomes a one-element field list. */
    method Select(fields: Fields)
      modifies this
      ensures selectFields == (if fields.Single? then [fields.name] else fields.names)
      ensures conditions == old(conditions) && orders == old(orders)
      ensures limitValue == old(limitValue) && offsetValue == old(offsetValue)
    {
      selectFields := if fields.Single? then [fields.name] else fields.names;
    }

    method Where(field: string, operator: string, value: Value)
      modifies this
      ensures conditions == old(conditions) + [Condition(field, operator, value)]
      ensures selectFields == old(selectFields) && orders == old(orders)
      ensures limitValue == old(limitValue) && offsetValue == old(offsetValue)
    {
      conditions := conditions + [Condition(field, operator, value)];
    }

    method WhereEquals(field: string, value: Value)
      modifies this
      ensures conditions == old(conditions) + [Condition(field, "=", value)]
      ensures selectFields == old(selectFields) && orders == old(orders)
      ensures limitValue == old(limitValue) && offsetValue == old(offsetValue)
    {
      Where(field, "=", value);
    }

    /** A list condition with one placeholder per value. */
    method WhereIn(field: string, values: seq<Value>)
      modifies this
      ensures conditions == old(conditions) + [Condition(field, InOperator(|values|), Many(values))]
      ensures selectFields == old(selectFields) && orders == old(orders)
      ensures limitValue == old(limitValue) && offsetValue == old(offsetValue)
    {
      conditions := conditions + [Condition(field, InOperator(|values|), Many(values))];
    }

    method OrderByAsc(field: string)
      modifies this
      ensures orders == old(orders) + [Order(field, ASC)]
      ensures selectFields == old(selectFields) && conditions == old(conditions)
      ensures limitValue == old(limitValue) && offsetValue == old(offsetValue)
    {
      orders := orders + [Order(field, ASC)];
    }

    method OrderByDesc(field: string)
      modifies this
      ensures orders == old(orders) + [Order(field, DESC)]
      ensures selectFields == old(selectFields) && conditions == old(conditions)
      ensures limitValue == old(limitValue) && offsetValue == old(offsetValue)
    {
      orders := orders + [Order(field, DESC)];
    }

    method Limit(count: int)
      modifies this
      ensures limitValue == Some(count)
      ensures selectFields == old(selectFields) && conditions == old(conditions) && orders == old(orders)
      ensures offsetValue == old(offsetValue)
    {
      limitValue := Some(count);
    }

    method Offset(count: int)
      modifies this
      ensures offsetValue == Some(count)
      ensures selectFields == old(selectFields) && conditions == old(conditions) && orders == old(orders)
      ensures limitValue == old(limitValue)
    {
      offsetValue := Some(count);
    }

    /** The SELECT the builder's state describes. */
    function SelectQuery(): Query
      reads this
    {
      Query(SelectSql(selectFields, table, conditions, orders, limitValue, offsetValue), SelectParams(conditions))
    }

    /** `buildSelectQuery`: the conditions are walked in order, collecting clauses and parameters. */
    method BuildSelectQuery() returns (q: Query)
      ensures q.sql == SelectSql(selectFields, table, conditions, orders, limitValue, offsetValue)
      ensures q.params == SelectParams(conditions)
    {
      var clauses, params := CollectConditions(conditions);
      q := Query(SelectHead(selectFields, table) + WhereSql(clauses) + OrderSql(orders)
                 + NumberSql(" LIMIT ", limitValue) + NumberSql(" OFFSET ", offsetValue), params);
    }

    /** `findOne`: the limit becomes 1, and stays so on the builder; the SELECT then issued. */
    method FindOne() returns (q: Query)
      modifies this
      ensures limitValue == Some(1)
      ensures selectFields == old(selectFields) && conditions == old(conditions) && orders == old(orders)
      ensures offsetValue == old(offsetValue)
      ensures q == SelectQuery()
    {
      Limit(1);
      q := BuildSelectQuery();
    }

    /**
     * `count`: the SELECT issued selects `COUNT(*) as count`, and the selected fields are restored
     * afterwards. `counts` is the count column of the rows the database answers; the result is the
     * first one, or 0.
     */
    method Count(counts: seq<int>) returns (q: Query, n: int)
      modifies this
      ensures q == Query(SelectSql(["COUNT(*) as count"], table, conditions, orders, limitValue, offsetValue),
                         SelectParams(conditions))
      ensures selectFields == old(selectFields) && conditions == old(conditions) && orders == old(orders)
      ensures limitValue == old(limitValue) && offsetValue == old(offsetValue)
      ensures n == if |counts| > 0 then counts[0] else 0
    {
      var originalFields := selectFields;
      selectFields := ["COUNT(*) as count"];
      q := BuildSelectQuery();
      selectFields := originalFields;
      n := if |counts| > 0 && counts[0] != 0 then counts[0] else 0;
    }

    /** `insert`: the keys in order, one placeholder each, and the values as parameters. */
    method Insert(data: seq<(string, Value)>) returns (q: Query)
      ensures q == InsertQuery(table, data)
    {
      q := InsertQuery(table, data);
    }

    /** `update`: the SET values, then one parameter per condition, list conditions included. */
    method Update(data: seq<(string, Value)>) returns (q: Query)
      ensures q == Query("UPDATE " + table + " SET " + SetClause(data) + PlainWhere(conditions),
                         ValuesOf(data) + PlainParams(conditions))
    {
      var conds := conditions;
      var params := ValuesOf(data);
      var parts: seq<string> := [];
      var i := 0;
      while i < |conds|
        invariant 0 <= i <= |conds|
        invariant params == ValuesOf(data) + PlainParams(conds[..i])
        invariant parts == PlainClauses(conds[..i])
      {
        params := params + [conds[i].value];
        parts := parts + [PlainClause(conds[i])];
        i := i + 1;
      }
      assert conds[..i] == conds;
      var sql := "UPDATE " + table + " SET " + SetClause(data);
      if |conds| > 0 {
        sql := sql + (" WHERE " + Join(parts, " AND "));
      }
      q := Query(sql, params);
    }

    /** `delete`: one parameter per condition. */
    method Delete() returns (q: Query)
      ensures q == Query("DELETE FROM " + table + PlainWhere(conditions), PlainParams(conditions))
    {
      var conds := conditions;
      var params: seq<Value> := [];
      var parts: seq<string> := [];
      var i := 0;
      while i < |conds|
        invariant 0 <= i <= |conds|
        invariant params == PlainParams(conds[..i])
        invariant parts == PlainClauses(conds[..i])
      {
        params := params + [conds[i].value];
        parts := parts + [PlainClause(conds[i])];
        i := i + 1;
      }
      assert conds[..i] == conds;
      var sql := "DELETE FROM " + table;
      if |conds| > 0 {
        sql := sql + (" WHERE " + Join(parts, " AND "));
      }
      q := Query(sql, params);
    }
  }
}
