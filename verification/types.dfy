/** The rows of the queue's database and the values its operations exchange. */
module Types {

  datatype Option<+T> = None | Some(value: T)

  datatype Res<+T> = Ok(value: T) | Err(error: Error)

  datatype Error =
    | NotFound(id: int)
    | InvalidStatus
    | ForeignKey
    | SelfDependency
    | MissingBlocker(id: int)
    | Circular(id: int)
    | InvalidDepType
    | WrongStatus(status: Status)
    | NotRunning(id: int)
    | BadMetadata
    | TaskClosed
    | NoFields
    | EnabledSchedules
    | ActiveActions
    | ProjectNotEmpty
    | NameTaken
    | LengthMismatch
    | QueryFailed

  /** Durations and clocks count nanoseconds; stored timestamps count whole seconds. */
  const SECOND := 1_000_000_000

  /** SQLite's datetime('now') and Go's Format(TimeLayout) both drop the fraction of a second. */
  function Sec(now: int): int {
    now / SECOND
  }

  datatype Json = JNull | JBool(b: bool) | JNum(n: int) | JStr(s: string) | JList(items: seq<Json>) | JObject

  type Object = map<string, Json>

  /** The metadata column: a JSON object, the empty string, valid JSON that is not an object, or no JSON at all. */
  datatype Meta = Obj(m: Object) | Blank | NonObject | Malformed

  datatype Status = Pending | Running | Dispatched | Done | Failed | Cancelled

  datatype TaskStatus = Open | TaskDone | Archived

  predicate IsTerminal(st: Status) {
    st.Done? || st.Failed? || st.Cancelled?
  }

  predicate IsActive(st: Status) {
    st.Pending? || st.Running? || st.Dispatched?
  }

  /** Statuses whose result and metadata may be edited after the fact. */
  predicate IsAmendable(st: Status) {
    st.Pending? || IsTerminal(st)
  }

  predicate IsClosed(st: TaskStatus) {
    st.TaskDone? || st.Archived?
  }

  datatype Project = Project(name: string, dispatchEnabled: bool)

  datatype Task = Task(projectId: int, title: string, meta: Meta, status: TaskStatus, workDir: string)

  datatype Action = Action(
    title: string, taskId: int, meta: Meta, status: Status, result: Option<string>,
    dispatchAfter: Option<int>, workDir: string, startedAt: Option<int>, completedAt: Option<int>)

  datatype Schedule = Schedule(
    taskId: int, instruction: string, title: string, cron: string, meta: Meta, enabled: bool,
    lastRunAt: Option<int>, lastError: Option<string>, createdAt: int)

  datatype DepKind = OnAction | OnTask | OnOther(name: string)

  /** A requested blocker. */
  datatype Dep = Dep(kind: DepKind, id: int)

  /** A stored row of action_dependencies: owner waits for the blocker. */
  datatype Edge = Edge(owner: int, kind: DepKind, id: int)

  datatype Event =
    | Created(id: int, status: Status)
    | Claimed(id: int)
    | StatusChanged(id: int, from: Status, to: Status, result: Option<string>, dispatchAfter: Option<int>)
    | DependenciesAdded(id: int, count: nat)
    | DependenciesCleared(id: int, count: nat)
    | MetadataMerged(id: int, keys: set<string>)
    | Updated(id: int, fields: nat)
    | ScheduleRan(scheduleId: int, lastRunAt: int, lastError: string)
    | TaskStatusChanged(taskId: int, taskFrom: TaskStatus, taskTo: TaskStatus, reason: string)
    | Note(entity: string, entityId: int, what: string)

  /** A full-text row: the columns the search triggers copy. */
  datatype SearchRow = SearchRow(title: string, result: string, meta: Meta)

  type Counts = map<(int, Status), int>

  datatype Ids = Ids(project: nat, task: nat, action: nat, schedule: nat)

  /** One state of the whole database. `next` holds the AUTOINCREMENT counters. */
  datatype Store = Store(
    projects: map<int, Project>,
    tasks: map<int, Task>,
    actions: map<int, Action>,
    schedules: map<int, Schedule>,
    edges: set<Edge>,
    counts: Counts,
    actionSearch: map<int, SearchRow>,
    taskSearch: map<int, SearchRow>,
    events: seq<Event>,
    next: Ids)

  const EMPTY := Store(map[], map[], map[], map[], {}, map[], map[], map[], [], Ids(1, 1, 1, 1))

  /** The column values of one INSERT INTO actions. A status string outside the valid set is None. */
  datatype ActionSpec = ActionSpec(
    title: string, taskId: int, meta: Meta, status: Option<Status>, dispatchAfter: Option<int>, workDir: string)
}
