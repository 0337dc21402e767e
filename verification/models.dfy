/** The task record the controller reads and writes, and the store that holds
    the records by primary key. */
module Models {

  /** A .NET `DateTime` is a count of 100-nanosecond ticks since
      0001-01-01 00:00:00; the range and the day length are the framework's. */
  const TicksPerDay: int := 864_000_000_000
  const MaxTicks: int := 3_155_378_975_999_999_999

  type DateTime = t: int | 0 <= t <= MaxTicks

  /** `DateTime.MinValue`, which is also what an absent date binds to. */
  const MinValue: DateTime := 0

  /** Number of whole days since the start of the calendar. */
  function Day(d: DateTime): nat {
    d / TicksPerDay
  }

  /** `DateTime.Date`: the same instant with its time of day cut to midnight. */
  function DateOf(d: DateTime): (r: DateTime)
    ensures r % TicksPerDay == 0
    ensures r <= d < r + TicksPerDay
  {
    d - d % TicksPerDay
  }

  /** Two instants have the same `.Date` exactly when they fall on the same day. */
  lemma SameDateIffSameDay(a: DateTime, b: DateTime)
    ensures DateOf(a) == DateOf(b) <==> Day(a) == Day(b)
  {
    assert DateOf(a) == Day(a) * TicksPerDay;
    assert DateOf(b) == Day(b) * TicksPerDay;
  }

  /** `EnumStatusTarefa`. A C# enum is an integer underneath, and a bound
      value need not be one of the named members, so a status is its code. */
  datatype Status = Status(code: int)

  const Pendente: Status := Status(0)
  const Finalizado: Status := Status(1)

  /** `Tarefa`: the store-assigned `id` and the four client-supplied fields. */
  datatype Tarefa = Tarefa(
    id: int,
    titulo: string,
    descricao: string,
    data: DateTime,
    status: Status)

  /** The `Tarefas` table, keyed by primary key. */
  type Store = map<int, Tarefa>

  /** A key under which a stored task is found. */
  lemma KeyOf(s: Store, t: Tarefa) returns (k: int)
    requires t in s.Values
    ensures k in s && s[k] == t
  {
    if forall j :: j in s ==> s[j] != t {
      assert false;
    }
    k :| k in s && s[k] == t;
  }

  /** The two records agree on every field except possibly `id`. */
  predicate SameContent(a: Tarefa, b: Tarefa) {
    && a.titulo == b.titulo
    && a.descricao == b.descricao
    && a.data == b.data
    && a.status == b.status
  }

  /** Each row is stored under its own primary key. */
  predicate IdsMatchKeys(s: Store) {
    forall k :: k in s ==> s[k].id == k
  }

  /** No stored task has an empty (`MinValue`) date. */
  predicate NoEmptyDates(s: Store) {
    forall k :: k in s ==> s[k].data != MinValue
  }

  predicate Valid(s: Store) {
    IdsMatchKeys(s) && NoEmptyDates(s)
  }
}
