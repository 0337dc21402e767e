# TarefaController, modelled in Dafny

This project models the task-management ("tarefa") controller of a small
ASP.NET Core CRUD API. The controller has eight endpoints:

- `ObterPorId`: get one task by id.
- `ObterTodos`: list every task.
- `ObterPorTitulo`, `ObterPorData`, `ObterPorStatus`: list the tasks whose title contains a string, whose date falls on a given day, or whose status equals a value.
- `Criar`, `Atualizar`, `Deletar`: create, update and delete a task.

The Entity Framework `DbContext` becomes a pure value. The `Tarefas` table is
a `map<int, Tarefa>` from primary key to record. Each endpoint is a function
from a store and the request arguments to an `Outcome`: the action result and
the store after the request. The action result is one of Ok, Created,
NoContent, NotFound or BadRequest.

Files and modules:

- `models.dfy` (`Models`): `DateTime` as a count of 100-ns ticks in the .NET range, with `MinValue = 0` and `.Date` as truncation to a multiple of a day. It also defines the `Status` enumeration, the `Tarefa` record, the `Store`, and the store invariant `Valid`: every row sits under its own id and no row has an empty date.
- `text.dfy` (`Text`): ordinal `string.Contains`, proved equal to "occurs at some index".
- `intsets.dfy` (`IntSets`): least and greatest elements of a finite key set, and the ascending enumeration used to list rows.
- `controller.dfy` (`TarefaController`): the eight endpoints, the shared `Where` used by the list endpoints, and the id allocation `NextId`.
- `properties.dfy` (`ControllerProperties`): the endpoints as one state machine (`Handle`, `Run`), the preservation of the store invariant, and properties that relate one endpoint to another.

Choices made where the source leaves things open:

- The `Tarefa` and `EnumStatusTarefa` definitions are not part of this model. `Tarefa` has just the five fields the controller touches. A status is its integer code, because a C# enum binds any integer. `Pendente` and `Finalizado` are the codes 0 and 1, and no property depends on which codes are named.
- The store assigns new ids. The model gives a new row one more than the largest id in use, or 1 in an empty store. The properties of `Criar` only use that the id is not already taken.
- The list endpoints return rows in an order the source leaves to the database. The model returns them in ascending id order.
- The date is checked only in `Criar` (line 62) and `Atualizar` (line 79). So "no row has a `MinValue` date" is proved as an invariant that every request preserves, starting from a valid store (`HandlePreservesValid`, `RunPreservesValid`).

## Model

| member | source | states |
|---|---|---|
| TarefaController.ObterPorId | DesafioAPIResolvido/Controller/TarefaController.cs:19-28 | The answer is 404 exactly when the id is absent, and otherwise 200 with the stored task. The store is unchanged. |
| TarefaController.ObterTodos | DesafioAPIResolvido/Controller/TarefaController.cs:32-36 | 200 with a list holding exactly the stored tasks, one entry per row. On a store whose rows sit under their own ids, the ids strictly ascend, so no task is listed twice. The store is unchanged. |
| TarefaController.ObterPorTitulo | DesafioAPIResolvido/Controller/TarefaController.cs:39-43 | 200 with exactly the stored tasks whose title contains the argument as a contiguous substring. The list is as long as the number of such rows, and on a store whose rows sit under their own ids the ids strictly ascend, so each matching task appears once. The store is unchanged. |
| TarefaController.ObterPorData | DesafioAPIResolvido/Controller/TarefaController.cs:46-50 | 200 with exactly the stored tasks whose date falls on the same calendar day as the argument. The list is as long as the number of such rows, and on a store whose rows sit under their own ids the ids strictly ascend, so each matching task appears once. The store is unchanged. |
| TarefaController.ObterPorStatus | DesafioAPIResolvido/Controller/TarefaController.cs:53-57 | 200 with exactly the stored tasks whose status equals the argument. The list is as long as the number of such rows, and on a store whose rows sit under their own ids the ids strictly ascend, so each matching task appears once. The store is unchanged. |
| TarefaController.Matches | DesafioAPIResolvido/Controller/TarefaController.cs:41-55 | The `Where` lambdas of the list endpoints. The title test holds exactly when the argument occurs in the title. The date test holds exactly when both dates fall on the same day number. The status test holds exactly when the statuses are equal. The unfiltered listing keeps every row. |
| TarefaController.Where | DesafioAPIResolvido/Controller/TarefaController.cs:34-55 | The `Where(...).ToList()` of the list endpoints. It lists exactly the matching rows, once each, so its length is the number of matching keys. On a store whose rows sit under their own ids, the ids come out strictly ascending. |
| TarefaController.NextId | DesafioAPIResolvido/Controller/TarefaController.cs:65-66 | The id the store gives the inserted row. It is not already in use, it is positive, and it is greater than every id in use. |
| TarefaController.Criar | DesafioAPIResolvido/Controller/TarefaController.cs:60-69 | 400 with the error message exactly when the date is `MinValue`, and then the store is unchanged. Otherwise 201 under an id not in the store before. The new row is the body with that id. Exactly one key is added and every earlier row is unchanged. |
| TarefaController.Atualizar | DesafioAPIResolvido/Controller/TarefaController.cs:72-90 | Absent id gives 404, checked before the date. Present id with a `MinValue` date gives 400. Both leave the store unchanged. Otherwise 200 with the stored row: title, description, date and status come from the body, and the stored id is kept. No key is added or removed and other rows are unchanged. |
| TarefaController.Deletar | DesafioAPIResolvido/Controller/TarefaController.cs:93-104 | Absent id gives 404 with the store unchanged. Otherwise 204, exactly that key is removed, and every other row is unchanged. |
| Text.Contains | DesafioAPIResolvido/Controller/TarefaController.cs:41 | `Titulo.Contains(titulo)` is true exactly when the argument occurs at some index of the title. The empty string occurs in every title. |
| Models.DateOf | DesafioAPIResolvido/Controller/TarefaController.cs:48 | `.Date` gives a midnight (a multiple of a day) no later than the instant and less than one day before it. |
| Models.SameDateIffSameDay | DesafioAPIResolvido/Controller/TarefaController.cs:48 | Two instants have equal `.Date` exactly when they fall on the same day number. |
| ControllerProperties.OnlySuccessfulWritesChangeTheStore | DesafioAPIResolvido/Controller/TarefaController.cs:19-104 | The five queries never change the store. A 404 or 400 answer never changes it either. A change only comes with a 201, 200 or 204. |
| ControllerProperties.HandlePreservesValid | DesafioAPIResolvido/Controller/TarefaController.cs:59-104 | From a store where every row sits under its own id and no row has a `MinValue` date, any single request leaves a store with both properties. |
| ControllerProperties.RunPreservesValid | DesafioAPIResolvido/Controller/TarefaController.cs:59-104 | The same holds after any sequence of requests. |
| ControllerProperties.CreateThenGet | DesafioAPIResolvido/Controller/TarefaController.cs:62-68 | After a successful create, get-by-id on the new id returns 200. The returned task has that id and the fields that were sent. |
| ControllerProperties.CreateExtendsListing | DesafioAPIResolvido/Controller/TarefaController.cs:65-66 | After a successful create, the full listing is the old listing plus the created task, and it is one longer. |
| ControllerProperties.UpdateThenGet | DesafioAPIResolvido/Controller/TarefaController.cs:82-89 | After a successful update, get-by-id returns the stored id with the body's four fields. |
| ControllerProperties.UpdateKeepsId | DesafioAPIResolvido/Controller/TarefaController.cs:82-85 | On a store whose rows sit under their own ids, the updated row keeps the requested id, whatever id the body carries. |
| ControllerProperties.UpdateNotFoundWins | DesafioAPIResolvido/Controller/TarefaController.cs:74-80 | An absent id with a `MinValue` date gives 404, not 400. |
| ControllerProperties.UpdateIdempotent | DesafioAPIResolvido/Controller/TarefaController.cs:74-89 | Repeating an update gives the same answer and the same store as sending it once. |
| ControllerProperties.DeleteThenGet | DesafioAPIResolvido/Controller/TarefaController.cs:95-103 | After a delete, get-by-id on that id is 404. Deleting it again is 404 and changes nothing. |
| ControllerProperties.DeleteShrinksListing | DesafioAPIResolvido/Controller/TarefaController.cs:100-101 | After a delete, the full listing is the old listing without the task that had that id, and it is one shorter. |
| ControllerProperties.EmptyTitleListsAll | DesafioAPIResolvido/Controller/TarefaController.cs:41 | Filtering by the empty title gives the same answer as listing everything. |
| ControllerProperties.SameDaySameTasks | DesafioAPIResolvido/Controller/TarefaController.cs:48 | Two date arguments on the same day give the same answer, whatever their time of day. |
| ControllerProperties.StatusListingsSeparate | DesafioAPIResolvido/Controller/TarefaController.cs:53-56 | For any two different status values, the two listings share no task. Every stored task is in the listing of its own status. This holds whatever values the enumeration has. |

## Left out

- Entity Framework internals: `Find`, `Add`, `Remove`, `SaveChanges`, change tracking and transactions. They are plain map lookups, insertions and removals here, and each request is one atomic step.
- The database's id scheme. It is replaced by `NextId`, and what the properties rely on is only that the id is fresh.
- The SQL translation of `Contains` and of the date comparison, including collation and case sensitivity. Title matching is an exact, case-sensitive substring test on characters. The model does not distinguish UTF-16 code units from Unicode scalar values.
- `DateTime.Kind`, time zones and parsing of the date argument. A date is its tick count.
- A null `titulo` argument. The source does not guard against it, and what happens depends on framework binding.
- A non-zero `Id` in the body of a create request. The source passes the body to `Add` unchanged, and whether the database accepts an explicit key depends on the column setup, which is not part of this model. The model always assigns the id itself.
- Routing attributes, model binding, JSON serialization, the Location header of the 201 answer, the controller constructor and the dependency injection of `OrganizadorContext`. These are framework plumbing with no decisions of their own. A 400 answer carries just its message string, not the anonymous `{ Erro = ... }` object.
- The order of list results. The source leaves it to the database, and the model fixes ascending id order.
- The 32-bit width of the C# `int` ids. Ids are unbounded integers, and `NextId` never wraps around. Nothing in the controller depends on the width.
- The numeric codes of `EnumStatusTarefa`. Its definition is not part of this model, so the codes of `Pendente` and `Finalizado` are assumed.
- Concurrent requests. The model serves requests one at a time.
