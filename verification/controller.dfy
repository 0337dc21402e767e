/** `TarefaController`: each endpoint is a pure transition from a store and
    its request arguments to a response and the store that follows. */
module TarefaController {
  import opened Models
  import IntSets
  import Text

  /** The payload of a 200 response: one task or a list of tasks. */
  datatype Body = Item(tarefa: Tarefa) | Items(tarefas: seq<Tarefa>)

  /** The action results the endpoints return. `Created` carries the route
      value `id` used for the location of the new task, and the task itself. */
  datatype Response =
    | Ok(body: Body)
    | Created(id: int, tarefa: Tarefa)
    | NoContent
    | NotFound
    | BadRequest(erro: string)

  datatype Outcome = Outcome(response: Response, store: Store)

  const EmptyDateError: string := "A data da tarefa não pode ser vazia"

  predicate IsError(r: Response) {
    r.NotFound? || r.BadRequest?
  }

  /** The `Where` predicates of the four list endpoints. */
  datatype Criterion =
    | All
    | TitleContains(titulo: string)
    | OnDate(data: DateTime)
    | HasStatus(status: Status)

  function Matches(c: Criterion, t: Tarefa): (b: bool)
    ensures c.All? ==> b
    ensures c.TitleContains? ==> (b <==> Text.Occurs(t.titulo, c.titulo))
    ensures c.OnDate? ==> (b <==> Day(t.data) == Day(c.data))
    ensures c.HasStatus? ==> (b <==> t.status == c.status)
  {
    if c.OnDate? then SameDateIffSameDay(t.data, c.data); MatchesBody(c, t)
    else MatchesBody(c, t)
  }

  /** The three lambdas and the unfiltered listing, as written. */
  predicate MatchesBody(c: Criterion, t: Tarefa) {
    match c
    case All => true
    case TitleContains(titulo) => Text.Contains(t.titulo, titulo)
    case OnDate(data) => DateOf(t.data) == DateOf(data)
    case HasStatus(status) => t.status == status
  }

  function MatchingIds(s: Store, c: Criterion): set<int> {
    set k | k in s && Matches(c, s[k])
  }

  /** Strictly ascending ids, so no task is listed twice. */
  predicate Ascending(ts: seq<Tarefa>) {
    forall i, j :: 0 <= i < j < |ts| ==> ts[i].id < ts[j].id
  }

  /** The rows of `s` selected by `c`, each once, in ascending key order
      (the order in which the store happens to return them is unspecified). */
  function Where(s: Store, c: Criterion): (ts: seq<Tarefa>)
    ensures |ts| == |MatchingIds(s, c)|
    ensures forall t :: t in ts <==> t in s.Values && Matches(c, t)
    ensures IdsMatchKeys(s) ==> Ascending(ts)
  {
    var ks := IntSets.Sorted(MatchingIds(s, c));
    assert forall i :: 0 <= i < |ks| ==> ks[i] in MatchingIds(s, c) by {
      forall i | 0 <= i < |ks|
        ensures ks[i] in MatchingIds(s, c)
      {
        assert ks[i] in ks;
      }
    }
    var ts := seq(|ks|, i requires 0 <= i < |ks| && ks[i] in s => s[ks[i]]);
    WhereMembers(s, c, ks, ts);
    ts
  }

  lemma WhereMembers(s: Store, c: Criterion, ks: seq<int>, ts: seq<Tarefa>)
    requires forall i :: 0 <= i < |ks| ==> ks[i] in MatchingIds(s, c)
    requires forall k :: k in MatchingIds(s, c) ==> k in ks
    requires |ts| == |ks|
    requires forall i :: 0 <= i < |ks| ==> ks[i] in s && ts[i] == s[ks[i]]
    ensures forall t :: t in ts <==> t in s.Values && Matches(c, t)
  {
    forall t | t in s.Values && Matches(c, t)
      ensures t in ts
    {
      var k := KeyOf(s, t);
      assert k in MatchingIds(s, c);
      var i :| 0 <= i < |ks| && ks[i] == k;
      assert ts[i] == t;
    }
    forall t | t in ts
      ensures t in s.Values && Matches(c, t)
    {
      var i :| 0 <= i < |ts| && ts[i] == t;
      assert ks[i] in MatchingIds(s, c);
      assert t == s[ks[i]];
    }
  }

  lemma MatchingAll(s: Store)
    ensures MatchingIds(s, All) == s.Keys
  {
    forall k | k in s
      ensures k in MatchingIds(s, All)
    {
    }
  }

  /** A set of keys chosen row by row as `c` chooses them is `c`'s matching set. */
  lemma MatchingIdsAre(s: Store, c: Criterion, ids: set<int>)
    requires ids <= s.Keys
    requires forall k :: k in s ==> (k in ids <==> Matches(c, s[k]))
    ensures MatchingIds(s, c) == ids
  {
    forall k | k in ids
      ensures k in MatchingIds(s, c)
    {
    }
    forall k | k in MatchingIds(s, c)
      ensures k in ids
    {
      assert k in s && Matches(c, s[k]);
    }
  }

  /** `ObterPorId`. */
  function ObterPorId(s: Store, id: int): (r: Outcome)
    ensures r.store == s
    ensures r.response.NotFound? <==> id !in s
    ensures id in s ==> r.response == Ok(Item(s[id]))
  {
    if id !in s then Outcome(NotFound, s)
    else Outcome(Ok(Item(s[id])), s)
  }

  /** `ObterTodos`. */
  function ObterTodos(s: Store): (r: Outcome)
    ensures r.store == s
    ensures r.response.Ok? && r.response.body.Items?
    ensures forall t :: t in r.response.body.tarefas <==> t in s.Values
    ensures |r.response.body.tarefas| == |s|
    ensures IdsMatchKeys(s) ==> Ascending(r.response.body.tarefas)
  {
    MatchingAll(s);
    Outcome(Ok(Items(Where(s, All))), s)
  }

  /** `ObterPorTitulo`. */
  function ObterPorTitulo(s: Store, titulo: string): (r: Outcome)
    ensures r.store == s
    ensures r.response.Ok? && r.response.body.Items?
    ensures forall t :: t in r.response.body.tarefas <==>
      t in s.Values && Text.Occurs(t.titulo, titulo)
    ensures |r.response.body.tarefas| == |set k | k in s && Text.Occurs(s[k].titulo, titulo)|
    ensures IdsMatchKeys(s) ==> Ascending(r.response.body.tarefas)
  {
    MatchingIdsAre(s, TitleContains(titulo), set k | k in s && Text.Occurs(s[k].titulo, titulo));
    Outcome(Ok(Items(Where(s, TitleContains(titulo)))), s)
  }

  /** `ObterPorData`. */
  function ObterPorData(s: Store, data: DateTime): (r: Outcome)
    ensures r.store == s
    ensures r.response.Ok? && r.response.body.Items?
    ensures forall t :: t in r.response.body.tarefas <==>
      t in s.Values && Day(t.data) == Day(data)
    ensures |r.response.body.tarefas| == |set k | k in s && Day(s[k].data) == Day(data)|
    ensures IdsMatchKeys(s) ==> Ascending(r.response.body.tarefas)
  {
    MatchingIdsAre(s, OnDate(data), set k | k in s && Day(s[k].data) == Day(data));
    Outcome(Ok(Items(Where(s, OnDate(data)))), s)
  }

  /** `ObterPorStatus`. */
  function ObterPorStatus(s: Store, status: Status): (r: Outcome)
    ensures r.store == s
    ensures r.response.Ok? && r.response.body.Items?
    ensures forall t :: t in r.response.body.tarefas <==>
      t in s.Values && t.status == status
    ensures |r.response.body.tarefas| == |set k | k in s && s[k].status == status|
    ensures IdsMatchKeys(s) ==> Ascending(r.response.body.tarefas)
  {
    MatchingIdsAre(s, HasStatus(status), set k | k in s && s[k].status == status);
    Outcome(Ok(Items(Where(s, HasStatus(status)))), s)
  }

  /** The key the store gives a newly inserted row: one past the largest key
      in use, so never a key already taken. */
  function NextId(s: Store): (id: int)
    ensures id !in s
    ensures id >= 1
    ensures forall k :: k in s ==> k < id
  {
    if s.Keys == {} then 1
    else
      var m := IntSets.Max(s.Keys);
      if m < 1 then 1 else m + 1
  }

  /** `Criar`. */
  function Criar(s: Store, tarefa: Tarefa): (r: Outcome)
    ensures r.response.BadRequest? <==> tarefa.data == MinValue
    ensures tarefa.data == MinValue ==>
      r.store == s && r.response.erro == EmptyDateError
    ensures tarefa.data != MinValue ==>
      && r.response.Created?
      && r.response.id !in s
      && r.response.tarefa.id == r.response.id
      && SameContent(r.response.tarefa, tarefa)
      && r.store.Keys == s.Keys + {r.response.id}
      && r.store[r.response.id] == r.response.tarefa
      && (forall k :: k in s ==> r.store[k] == s[k])
  {
    if tarefa.data == MinValue then
      Outcome(BadRequest(EmptyDateError), s)
    else
      var id := NextId(s);
      var criada := tarefa.(id := id);
      Outcome(Created(id, criada), s[id := criada])
  }

  /** `Atualizar`. The key is looked up before the date is checked. */
  function Atualizar(s: Store, id: int, tarefa: Tarefa): (r: Outcome)
    ensures id !in s ==> r == Outcome(NotFound, s)
    ensures id in s && tarefa.data == MinValue ==>
      r == Outcome(BadRequest(EmptyDateError), s)
    ensures id in s && tarefa.data != MinValue ==>
      && r.response.Ok? && r.response.body.Item?
      && r.response.body.tarefa.id == s[id].id
      && SameContent(r.response.body.tarefa, tarefa)
      && r.store.Keys == s.Keys
      && r.store[id] == r.response.body.tarefa
      && (forall k :: k in s && k != id ==> r.store[k] == s[k])
  {
    if id !in s then
      Outcome(NotFound, s)
    else if tarefa.data == MinValue then
      Outcome(BadRequest(EmptyDateError), s)
    else
      var banco := s[id];
      var atualizada := banco.(
        titulo := tarefa.titulo,
        descricao := tarefa.descricao,
        data := tarefa.data,
        status := tarefa.status);
      Outcome(Ok(Item(atualizada)), s[id := atualizada])
  }

  /** `Deletar`. */
  function Deletar(s: Store, id: int): (r: Outcome)
    ensures id !in s ==> r == Outcome(NotFound, s)
    ensures id in s ==>
      && r.response == NoContent
      && r.store.Keys == s.Keys - {id}
      && (forall k :: k in r.store ==> r.store[k] == s[k])
  {
    if id !in s then Outcome(NotFound, s)
    else Outcome(NoContent, s - {id})
  }
}
