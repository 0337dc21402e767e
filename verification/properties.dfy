/** The controller as a state machine over the store, and the properties that
    relate one endpoint to another. */
module ControllerProperties {
  import opened Models
  import opened TarefaController
  import Text

  /** One HTTP request to the controller, with its bound arguments. */
  datatype Request =
    | GetById(id: int)
    | GetAll
    | GetByTitle(titulo: string)
    | GetByDate(data: DateTime)
    | GetByStatus(status: Status)
    | Create(tarefa: Tarefa)
    | Update(id: int, tarefa: Tarefa)
    | Delete(id: int)
  {
    predicate IsQuery() {
      GetById? || GetAll? || GetByTitle? || GetByDate? || GetByStatus?
    }
  }

  /** Routes a request to its endpoint. */
  function Handle(s: Store, q: Request): Outcome {
    match q
    case GetById(id) => ObterPorId(s, id)
    case GetAll => ObterTodos(s)
    case GetByTitle(titulo) => ObterPorTitulo(s, titulo)
    case GetByDate(data) => ObterPorData(s, data)
    case GetByStatus(status) => ObterPorStatus(s, status)
    case Create(tarefa) => Criar(s, tarefa)
    case Update(id, tarefa) => Atualizar(s, id, tarefa)
    case Delete(id) => Deletar(s, id)
  }

  /** The store after serving the requests one after another. */
  function Run(s: Store, qs: seq<Request>): Store
    decreases |qs|
  {
    if qs == [] then s else Run(Handle(s, qs[0]).store, qs[1..])
  }

  /** Reading never writes, and a request answered with 404 or 400 writes
      nothing either. */
  lemma OnlySuccessfulWritesChangeTheStore(s: Store, q: Request)
    ensures q.IsQuery() ==> Handle(s, q).store == s
    ensures IsError(Handle(s, q).response) ==> Handle(s, q).store == s
    ensures Handle(s, q).store != s ==>
      Handle(s, q).response.Created? || Handle(s, q).response.Ok? ||
      Handle(s, q).response.NoContent?
  {
  }

  /** Every request keeps each row under its own key and keeps empty dates
      out of the store. */
  lemma HandlePreservesValid(s: Store, q: Request)
    requires Valid(s)
    ensures Valid(Handle(s, q).store)
  {
  }

  /** From a valid store, any sequence of requests leaves a valid store. */
  lemma {:induction false} RunPreservesValid(s: Store, qs: seq<Request>)
    requires Valid(s)
    ensures Valid(Run(s, qs))
    decreases |qs|
  {
    if qs != [] {
      HandlePreservesValid(s, qs[0]);
      RunPreservesValid(Handle(s, qs[0]).store, qs[1..]);
    }
  }

  /** A created task is then found under its new id with the fields it was
      sent with. */
  lemma CreateThenGet(s: Store, t: Tarefa)
    requires t.data != MinValue
    ensures var c := Criar(s, t);
      && c.response.Created?
      && var g := ObterPorId(c.store, c.response.id).response;
      && g.Ok? && g.body.Item?
      && g.body.tarefa.id == c.response.id
      && SameContent(g.body.tarefa, t)
  {
  }

  /** After a create, the full listing is the old listing plus the new task. */
  lemma CreateExtendsListing(s: Store, t: Tarefa)
    requires t.data != MinValue
    ensures var c := Criar(s, t);
      var before := ObterTodos(s).response.body.tarefas;
      var after := ObterTodos(c.store).response.body.tarefas;
      && |after| == |before| + 1
      && forall u :: u in after <==> u in before || u == c.response.tarefa
  {
    var c := Criar(s, t);
    forall u | u in c.store.Values
      ensures u in s.Values || u == c.response.tarefa
    {
      var k := KeyOf(c.store, u);
      if k != c.response.id {
        assert k in s && s[k] == u;
      }
    }
    forall u | u in s.Values
      ensures u in c.store.Values
    {
      var k := KeyOf(s, u);
      assert c.store[k] == u;
    }
    assert c.store[c.response.id] == c.response.tarefa;
  }

  /** A successful update is then read back: stored id, new fields. */
  lemma UpdateThenGet(s: Store, id: int, t: Tarefa)
    requires id in s && t.data != MinValue
    ensures var g := ObterPorId(Atualizar(s, id, t).store, id).response;
      && g.Ok? && g.body.Item?
      && g.body.tarefa.id == s[id].id
      && SameContent(g.body.tarefa, t)
  {
  }

  /** On a store whose rows sit under their own keys, an update keeps the id
      of the row whatever id the request body carries. */
  lemma UpdateKeepsId(s: Store, id: int, t: Tarefa)
    requires IdsMatchKeys(s)
    requires id in s && t.data != MinValue
    ensures Atualizar(s, id, t).store[id].id == id
    ensures Atualizar(s, id, t).response.body.tarefa.id == id
  {
  }

  /** 404 is chosen over 400 when the key is absent and the date is empty. */
  lemma UpdateNotFoundWins(s: Store, id: int, t: Tarefa)
    requires id !in s && t.data == MinValue
    ensures Atualizar(s, id, t).response == NotFound
  {
  }

  /** Sending the same update twice leaves the same store and answer as
      sending it once. */
  lemma UpdateIdempotent(s: Store, id: int, t: Tarefa)
    ensures var r := Atualizar(s, id, t);
      Atualizar(r.store, id, t) == r
  {
  }

  /** A deleted task is no longer found, and deleting it again is a 404 that
      changes nothing. */
  lemma DeleteThenGet(s: Store, id: int)
    requires id in s
    ensures var d := Deletar(s, id).store;
      && ObterPorId(d, id).response == NotFound
      && Deletar(d, id) == Outcome(NotFound, d)
  {
  }

  /** After a delete, the full listing is the old listing without the
      deleted task. */
  lemma DeleteShrinksListing(s: Store, id: int)
    requires IdsMatchKeys(s)
    requires id in s
    ensures var d := Deletar(s, id).store;
      var before := ObterTodos(s).response.body.tarefas;
      var after := ObterTodos(d).response.body.tarefas;
      && |after| + 1 == |before|
      && forall u :: u in after <==> u in before && u.id != id
  {
    var d := Deletar(s, id).store;
    forall u | u in d.Values
      ensures u in s.Values && u.id != id
    {
      var k := KeyOf(d, u);
      assert s[k] == u;
    }
    forall u | u in s.Values && u.id != id
      ensures u in d.Values
    {
      var k := KeyOf(s, u);
      assert d[k] == u;
    }
  }

  /** Every title contains the empty string, so filtering by it lists
      everything. */
  lemma EmptyTitleListsAll(s: Store)
    ensures ObterPorTitulo(s, "").response == ObterTodos(s).response
  {
    forall k | k in s
      ensures k in MatchingIds(s, TitleContains(""))
    {
      assert Text.OccursAt(s[k].titulo, "", 0);
    }
    MatchingAll(s);
    assert MatchingIds(s, TitleContains("")) == MatchingIds(s, All);
  }

  /** Two arguments on the same day select the same tasks, whatever their
      time of day. */
  lemma SameDaySameTasks(s: Store, d1: DateTime, d2: DateTime)
    requires Day(d1) == Day(d2)
    ensures ObterPorData(s, d1) == ObterPorData(s, d2)
  {
    SameDateIffSameDay(d1, d2);
    forall k | k in s
      ensures k in MatchingIds(s, OnDate(d1)) <==> k in MatchingIds(s, OnDate(d2))
    {
    }
    assert MatchingIds(s, OnDate(d1)) == MatchingIds(s, OnDate(d2));
  }

  /** Whatever values the status enumeration has: the listings of two
      different statuses share no task, and every stored task appears in
      the listing of its own status. */
  lemma StatusListingsSeparate(s: Store, a: Status, b: Status)
    requires a != b
    ensures forall t :: t in ObterPorStatus(s, a).response.body.tarefas ==>
      t !in ObterPorStatus(s, b).response.body.tarefas
    ensures forall k :: k in s ==>
      s[k] in ObterPorStatus(s, s[k].status).response.body.tarefas
  {
  }
}
