/**
 The normalized message store: one `chat_message` row per message, keyed by
 `{chat_id}-{message_id}`, and the message map rebuilt from the rows of a chat.
 */
module ChatMessages {
  import opened Prelude

  /** Token counts by name; the empty report is falsy. */
  type Usage = map<string, int>

  /** A message as a JSON object. */
  datatype Message = Message(
    parentId: Field<Option<Id>>,
    parent_id: Field<Option<Id>>,
    childrenIds: Field<seq<Id>>,
    role: Field<string>,
    done: Field<bool>,
    usage: Field<Usage>,
    infoUsage: Field<Usage>)

  const BLANK := Message(Absent, Absent, Absent, Absent, Absent, Absent, Absent)

  datatype Row = Row(chatId: Id, role: string, parent: Option<Id>, done: bool, usage: Option<Usage>)

  type Rows = map<string, Row>

  function ParentOf(m: Message): Option<Id>
  {
    Truthy(m.parentId.GetOr(None))
  }

  function ChildrenOf(m: Message): seq<Id>
  {
    m.childrenIds.GetOr([])
  }

  predicate HasRole(m: Message)
  {
    m.role.GetOr("") != ""
  }

  /** The parent a new row takes from a message. */
  function InsertedParent(m: Message): Option<Id>
  {
    Or(m.parent_id.GetOr(None), m.parentId.GetOr(None))
  }

  // ---------------------------------------------------------------- keys

  function Key(chatId: Id, messageId: Id): string
  {
    chatId + "-" + messageId
  }

  function StripPrefix(chatId: Id, key: string): Id
  {
    if chatId + "-" <= key then key[|chatId| + 1..] else key
  }

  lemma StripKey(chatId: Id, messageId: Id)
    ensures StripPrefix(chatId, Key(chatId, messageId)) == messageId
  {
  }

  /** Chat ids of one length never share a row key, whatever the message ids are. */
  lemma KeysOfEqualLengthChatsDiffer(c: Id, m: Id, c': Id, m': Id)
    requires |c| == |c'| && Key(c, m) == Key(c', m')
    ensures c == c' && m == m'
  {
    assert c == Key(c, m)[..|c|] && c' == Key(c', m')[..|c'|];
    StripKey(c, m);
    StripKey(c', m');
  }

  /** With chat ids of different lengths two messages can fall on one row. */
  lemma KeysOfUnequalLengthChatsCanClash()
    ensures exists c, m, c', m' :: c != c' && Key(c, m) == Key(c', m')
  {
    assert Key("a", "b-c") == "a-b-c" == Key("a-b", "c");
  }

  // --------------------------------------------------------------- usage

  function Count(u: Usage, name: string): int
  {
    if name in u then u[name] else 0
  }

  function FirstNonZero(u: Usage, names: seq<string>): int
  {
    if names == [] then 0
    else if Count(u, names[0]) != 0 then Count(u, names[0])
    else FirstNonZero(u, names[1..])
  }

  function NormalizeUsage(u: Usage): Usage
  {
    var input := FirstNonZero(u, ["input_tokens", "prompt_tokens", "prompt_eval_count", "prompt_n"]);
    var output := FirstNonZero(u, ["output_tokens", "completion_tokens", "eval_count", "predicted_n"]);
    var total := if Count(u, "total_tokens") != 0 then Count(u, "total_tokens") else input + output;
    u["input_tokens" := input]["output_tokens" := output]["total_tokens" := total]
  }

  /** The normalized usage report of a message, if it carries one. */
  function GetUsage(m: Message): Option<Usage>
  {
    var u := m.usage.GetOr(map[]);
    var raw := if u != map[] then u else m.infoUsage.GetOr(map[]);
    if raw != map[] then Some(NormalizeUsage(raw)) else None
  }

  predicate HasTokens(u: Usage)
  {
    Count(u, "input_tokens") != 0 || Count(u, "prompt_tokens") != 0
  }

  predicate HoldsTokens(r: Row)
  {
    r.usage.Some? && HasTokens(r.usage.value)
  }

  // -------------------------------------------------- one insert or update

  function NewRow(chatId: Id, m: Message): Row
  {
    Row(chatId, m.role.GetOr("user"), InsertedParent(m), m.done.GetOr(true), GetUsage(m))
  }

  function UpdatedRow(r: Row, m: Message): Row
  {
    Row(r.chatId,
        m.role.GetOr(r.role),
        if m.parent_id.Present? then InsertedParent(m) else r.parent,
        m.done.GetOr(r.done),
        match GetUsage(m)
        case None => r.usage
        case Some(u) => Some((if r.usage.Some? then r.usage.value else map[]) + u))
  }

  /** What the row of a message becomes when the message is written. */
  function WrittenRow(found: Option<Row>, chatId: Id, m: Message): Row
  {
    match found
    case None => NewRow(chatId, m)
    case Some(r) => UpdatedRow(r, m)
  }

  function RowAt(rows: Rows, key: string): Option<Row>
  {
    if key in rows then Some(rows[key]) else None
  }

  function UpsertRow(rows: Rows, chatId: Id, messageId: Id, m: Message): Rows
  {
    var key := Key(chatId, messageId);
    rows[key := WrittenRow(RowAt(rows, key), chatId, m)]
  }

  /** Whether a write charges the user, given the row it finds. */
  function Charges(row: Option<Row>, m: Message): bool
  {
    var done := m.done == Present(true);
    match row
    case None => (GetUsage(m).Some? || done) && m.role.GetOr("user") == "assistant"
    case Some(r) => done && !HoldsTokens(r) && (GetUsage(m).Some? || m.role.GetOr(r.role) == "assistant")
  }

  // ---------------------------------------------------- the map of a chat

  function KeysOf(rows: Rows, chatId: Id): set<string>
  {
    set k | k in rows && rows[k].chatId == chatId
  }

  /** Every row of the chat sits under the key built from its chat id. */
  ghost predicate KeyedBy(rows: Rows, chatId: Id)
  {
    forall k | k in rows && rows[k].chatId == chatId :: chatId + "-" <= k
  }

  /** The rows of a chat by message id. */
  function ViewOf(rows: Rows, chatId: Id): (v: map<Id, Row>)
    requires KeyedBy(rows, chatId)
    ensures forall id :: id in v <==> Key(chatId, id) in KeysOf(rows, chatId)
    ensures forall id | id in v :: v[id] == rows[Key(chatId, id)]
  {
    forall k | k in KeysOf(rows, chatId) ensures Key(chatId, StripPrefix(chatId, k)) == k {
      assert k[..|chatId| + 1] == chatId + "-";
    }
    forall id ensures StripPrefix(chatId, Key(chatId, id)) == id { StripKey(chatId, id); }
    var ids := set k | k in KeysOf(rows, chatId) :: StripPrefix(chatId, k);
    map id | id in ids :: rows[Key(chatId, id)]
  }

  /** view holds one row of the keys under each id that a key strips to. */
  ghost predicate Views(rows: Rows, chatId: Id, keys: set<string>, view: map<Id, Row>)
  {
    && (forall k | k in keys :: StripPrefix(chatId, k) in view)
    && forall id | id in view :: exists k :: k in keys && k in rows && StripPrefix(chatId, k) == id && rows[k] == view[id]
  }

  /** The chat's rows by message id; a row under a key without the chat's prefix keeps its whole key. */
  ghost predicate IsViewOf(rows: Rows, chatId: Id, view: map<Id, Row>)
  {
    Views(rows, chatId, KeysOf(rows, chatId), view)
  }

  lemma ViewsOneMore(rows: Rows, chatId: Id, keys: set<string>, view: map<Id, Row>, k: string)
    requires Views(rows, chatId, keys, view) && k in rows
    ensures Views(rows, chatId, keys + {k}, view[StripPrefix(chatId, k) := rows[k]])
  {
    var view' := view[StripPrefix(chatId, k) := rows[k]];
    forall id | id in view'
      ensures exists j :: j in keys + {k} && j in rows && StripPrefix(chatId, j) == id && rows[j] == view'[id]
    {
      if id == StripPrefix(chatId, k) {
        assert k in keys + {k} && k in rows;
      } else {
        var j :| j in keys && j in rows && StripPrefix(chatId, j) == id && rows[j] == view[id];
        assert j in keys + {k};
      }
    }
  }

  /** Where every key of the chat has its prefix there is just one view. */
  lemma KeyedViewIsUnique(rows: Rows, chatId: Id, view: map<Id, Row>)
    requires KeyedBy(rows, chatId)
    ensures IsViewOf(rows, chatId, view) <==> view == ViewOf(rows, chatId)
  {
    var only := ViewOf(rows, chatId);
    forall k | k in KeysOf(rows, chatId) ensures Key(chatId, StripPrefix(chatId, k)) == k {
      assert k[..|chatId| + 1] == chatId + "-";
    }
    forall id ensures StripPrefix(chatId, Key(chatId, id)) == id {
      StripKey(chatId, id);
    }
    if IsViewOf(rows, chatId, view) {
      forall id ensures id in view <==> id in only {
        if id in only {
          assert Key(chatId, id) in KeysOf(rows, chatId);
        }
      }
      assert view.Keys == only.Keys;
      assert view == only;
    } else if view == only {
      forall id | id in only
        ensures exists k :: k in KeysOf(rows, chatId) && k in rows && StripPrefix(chatId, k) == id && rows[k] == only[id]
      {
        assert Key(chatId, id) in KeysOf(rows, chatId) && Key(chatId, id) in rows;
      }
      assert IsViewOf(rows, chatId, only);
    }
  }

  /** Every row of a chat is in its map: under the message's id, or under its whole key when that lacks the chat's prefix. */
  lemma EveryRowIsServed(rows: Rows, chatId: Id, view: map<Id, Row>, m: map<Id, Message>, k: string)
    requires IsViewOf(rows, chatId, view) && IsMessageMap(view, m)
    requires k in rows && rows[k].chatId == chatId
    ensures if chatId + "-" <= k then exists id :: id in m && Key(chatId, id) == k else k in m
  {
    var id := StripPrefix(chatId, k);
    assert k in KeysOf(rows, chatId);
    assert id in view && id in m;
    if chatId + "-" <= k {
      assert k[..|chatId| + 1] == chatId + "-";
      assert Key(chatId, id) == k;
    }
  }

  function RowMessage(r: Row): Message
  {
    var usage: Field<Usage> := if r.usage.Some? then Present(r.usage.value) else Absent;
    BLANK.(parentId := if r.parent.Some? then Present(r.parent) else Absent,
           role := Present(r.role), done := Present(r.done), usage := usage, infoUsage := usage)
  }

  /** Ids of the messages of m that name p as their parent. */
  ghost function ChildSet(m: map<Id, Message>, p: Id): set<Id>
  {
    set c | c in m && ParentOf(m[c]) == Some(p)
  }

  /** m holds a message for every row of the view, each listing its children exactly once. */
  ghost predicate IsMessageMap(view: map<Id, Row>, m: map<Id, Message>)
  {
    && m.Keys == view.Keys
    && (forall id | id in m :: m[id].(childrenIds := Absent) == RowMessage(view[id]))
    && forall id | id in m :: m[id].childrenIds.Present? && NoDup(ChildrenOf(m[id]))
                              && Elems(ChildrenOf(m[id])) == ChildSet(m, id)
  }

  class ChatMessageTable {
    var rows: Rows

    constructor ()
      ensures rows == map[]
    {
      rows := map[];
    }

    /** Insert or update one message; `charged` tells whether spending was recorded. */
    method UpsertMessage(messageId: Id, chatId: Id, data: Message) returns (charged: bool)
      modifies this
      ensures rows == UpsertRow(old(rows), chatId, messageId, data)
      ensures charged == Charges(RowAt(old(rows), Key(chatId, messageId)), data)
    {
      var key := Key(chatId, messageId);
      if key in rows {
        var row := rows[key];
        if data.role.Present? {
          row := row.(role := data.role.value);
        }
        if data.parent_id.Present? {
          row := row.(parent := Or(data.parent_id.value, data.parentId.GetOr(None)));
        }
        if data.done.Present? {
          row := row.(done := data.done.value);
        }
        var usage := GetUsage(data);
        charged := false;
        var hadTokens := row.usage.Some? && HasTokens(row.usage.value);
        if usage.Some? {
          row := row.(usage := Some((if row.usage.Some? then row.usage.value else map[]) + usage.value));
          if !hadTokens && data.done == Present(true) {
            charged := true;
          }
        } else if data.done == Present(true) && row.role == "assistant" {
          if !hadTokens {
            charged := true;
          }
        }
        rows := rows[key := row];
      } else {
        var usage := GetUsage(data);
        var row := Row(chatId, data.role.GetOr("user"), Or(data.parent_id.GetOr(None), data.parentId.GetOr(None)),
                       data.done.GetOr(true), usage);
        rows := rows[key := row];
        charged := (usage.Some? || data.done == Present(true)) && row.role == "assistant";
      }
    }

    /** The rows of a chat as linked messages; nothing when the chat has no rows. */
    method GetMessagesMap(chatId: Id) returns (result: Option<map<Id, Message>>, ghost view: map<Id, Row>)
      ensures IsViewOf(rows, chatId, view)
      ensures result.None? <==> KeysOf(rows, chatId) == {}
      ensures result.Some? ==> IsMessageMap(view, result.value)
    {
      view := map[];
      var keys := KeysOf(rows, chatId);
      if keys == {} {
        return None, view;
      }
      var m: map<Id, Message> := map[];
      var todo := keys;
      while todo != {}
        invariant todo <= keys && keys == KeysOf(rows, chatId)
        invariant Views(rows, chatId, keys - todo, view) && m.Keys == view.Keys
        invariant forall id | id in m :: m[id] == RowMessage(view[id])
        decreases todo
      {
        var k :| k in todo;
        ViewsOneMore(rows, chatId, keys - todo, view, k);
        assert keys - (todo - {k}) == (keys - todo) + {k};
        m := m[StripPrefix(chatId, k) := RowMessage(rows[k])];
        view := view[StripPrefix(chatId, k) := rows[k]];
        todo := todo - {k};
      }
      assert keys - todo == keys;
      m := LinkChildren(m);
      result := Some(m);
    }
  }

  /** m is `bare` with, at each id, a duplicate-free list of its children among `seen`. */
  ghost predicate Linked(bare: map<Id, Message>, m: map<Id, Message>, seen: set<Id>)
  {
    && m.Keys == bare.Keys
    && (forall id | id in m :: m[id].(childrenIds := Absent) == bare[id])
    && forall id | id in m :: NoDup(ChildrenOf(m[id])) && Elems(ChildrenOf(m[id])) == ChildSet(bare, id) * seen
  }

  lemma ChildSetIgnoresLists(bare: map<Id, Message>, m: map<Id, Message>, id: Id)
    requires m.Keys == bare.Keys
    requires forall c | c in m :: m[c].(childrenIds := Absent) == bare[c]
    ensures ChildSet(m, id) == ChildSet(bare, id)
  {
  }

  lemma LinkOne(bare: map<Id, Message>, m: map<Id, Message>, seen: set<Id>, c: Id, p: Id) returns (m': map<Id, Message>)
    requires Linked(bare, m, seen) && c in m && c !in seen && p in m && ParentOf(bare[c]) == Some(p)
    ensures m' == m[p := m[p].(childrenIds := Present(ChildrenOf(m[p]) + [c]))]
    ensures Linked(bare, m', seen + {c})
  {
    var children := ChildrenOf(m[p]);
    m' := m[p := m[p].(childrenIds := Present(children + [c]))];
    assert c !in children by { assert c !in Elems(children); }
    NoDupAppend(children, c);
    assert Elems(children + [c]) == Elems(children) + {c};
    forall id | id in m'
      ensures NoDup(ChildrenOf(m'[id])) && Elems(ChildrenOf(m'[id])) == ChildSet(bare, id) * (seen + {c})
    {
      if id != p {
        assert c !in ChildSet(bare, id);
        assert ChildSet(bare, id) * (seen + {c}) == ChildSet(bare, id) * seen;
      } else {
        assert ChildSet(bare, id) * (seen + {c}) == ChildSet(bare, id) * seen + {c};
      }
    }
  }

  lemma SkipOne(bare: map<Id, Message>, m: map<Id, Message>, seen: set<Id>, c: Id)
    requires Linked(bare, m, seen) && c in m && (ParentOf(bare[c]).None? || ParentOf(bare[c]).value !in m)
    ensures Linked(bare, m, seen + {c})
  {
  }

  /** Append each message to its parent's list, then give the leaves an empty one. */
  method LinkChildren(bare: map<Id, Message>) returns (m: map<Id, Message>)
    requires forall id | id in bare :: bare[id].childrenIds == Absent
    ensures m.Keys == bare.Keys
    ensures forall id | id in m :: m[id].(childrenIds := Absent) == bare[id]
    ensures forall id | id in m :: m[id].childrenIds.Present? && NoDup(ChildrenOf(m[id]))
                                   && Elems(ChildrenOf(m[id])) == ChildSet(m, id)
  {
    m := bare;
    var todo := bare.Keys;
    while todo != {}
      invariant todo <= bare.Keys
      invariant Linked(bare, m, bare.Keys - todo)
      decreases todo
    {
      var c :| c in todo;
      assert m[c].(childrenIds := Absent) == bare[c];
      var parent := ParentOf(m[c]);
      if parent.Some? && parent.value in m {
        ghost var m' := LinkOne(bare, m, bare.Keys - todo, c, parent.value);
        m := m[parent.value := m[parent.value].(childrenIds := Present(ChildrenOf(m[parent.value]) + [c]))];
      } else {
        SkipOne(bare, m, bare.Keys - todo, c);
      }
      todo := todo - {c};
      assert bare.Keys - todo == (bare.Keys - todo - {c}) + {c};
    }
    m := FillLeaves(bare, m);
    forall id | id in m ensures Elems(ChildrenOf(m[id])) == ChildSet(m, id) {
      ChildSetIgnoresLists(bare, m, id);
      assert ChildSet(bare, id) * bare.Keys == ChildSet(bare, id);
    }
  }

  method FillLeaves(ghost bare: map<Id, Message>, linked: map<Id, Message>) returns (m: map<Id, Message>)
    requires Linked(bare, linked, bare.Keys)
    ensures Linked(bare, m, bare.Keys)
    ensures forall id | id in m :: m[id].childrenIds.Present?
  {
    m := linked;
    var leaves := set id | id in m && m[id].childrenIds.Absent?;
    while leaves != {}
      invariant Linked(bare, m, bare.Keys)
      invariant leaves == set id | id in m && m[id].childrenIds.Absent?
      decreases leaves
    {
      var id :| id in leaves;
      m := m[id := m[id].(childrenIds := Present([]))];
      leaves := leaves - {id};
    }
    forall id | id in m ensures m[id].childrenIds.Present? {
      assert id !in leaves;
    }
  }
}
