/**
  The command registry: a table from command name to command, with an
  upserting `Use`, a `Handle` dispatch step that contains handler failures,
  and a `Register` step that builds the bulk-registration request.
 */
module Commands {
  import opened Wrappers
  import opened Seqs

  /** The declarative description sent to the platform; only its name is read here. */
  datatype CommandJson = CommandJson(name: string, payload: string)

  /** An incoming command invocation. */
  datatype Interaction = Interaction(commandName: string)

  /**
    What a handler did, as the registry observes it once control returns:
    it returned or it threw, and whether the interaction has been replied to.
   */
  datatype HandlerOutcome = Returned(replied: bool) | Threw(replied: bool)

  /** A command: its description and its handler. */
  datatype Command = Command(json: CommandJson, handler: Interaction -> HandlerOutcome)

  /** The one reply the registry itself may send. */
  const InternalErrorReply := "Internal server error"

  /** The error `Register` raises on an empty table. */
  datatype RegisterError = NoCommands

  /** The text of the error each registration failure throws. */
  function RegisterErrorText(e: RegisterError): string
  {
    match e
    case NoCommands => "no commands to register to guild."
  }

  /** The guild-commands route of the platform's REST interface. */
  datatype Route = ApplicationGuildCommands(clientId: string, guildId: string)

  /** The single bulk "replace all guild commands" request `Register` would send. */
  datatype Put = Put(token: string, route: Route, body: seq<CommandJson>)

  /** The table's abstract value: the entries and the order in which names were first inserted. */
  datatype Table = Table(entries: map<string, Command>, order: seq<string>)

  /**
    The table invariant: the insertion order lists each key exactly once,
    and every command is filed under its own name.
   */
  ghost predicate Valid(t: Table)
  {
    && Distinct(t.order)
    && (forall k :: k in t.entries <==> k in t.order)
    && (forall k :: k in t.entries ==> t.entries[k].json.name == k)
  }

  /**
    Setting a command under its name: the command becomes the entry for
    its name, every other entry stays, and a new name joins the end of the
    insertion order while an existing name keeps its place.
   */
  function Upsert(t: Table, c: Command): (u: Table)
    ensures Valid(t) ==> Valid(u)
    ensures c.json.name in u.entries && u.entries[c.json.name] == c
    ensures forall k :: k != c.json.name ==>
              (k in u.entries <==> k in t.entries) &&
              (k in t.entries ==> u.entries[k] == t.entries[k])
    ensures |t.order| <= |u.order| && u.order[..|t.order|] == t.order
  {
    var name := c.json.name;
    var u := Table(t.entries[name := c], if name in t.entries then t.order else t.order + [name]);
    assert Valid(t) ==> Valid(u) by {
      if Valid(t) && name !in t.entries {
        forall i, j | 0 <= i < j < |u.order| ensures u.order[i] != u.order[j] {
          if j == |t.order| { assert u.order[i] == t.order[i]; }
        }
      }
    }
    u
  }

  /** Re-registering a name leaves one entry, the later command, in the first registration's place. */
  lemma UpsertSameNameTwice(t: Table, c: Command, c': Command)
    requires c.json.name == c'.json.name
    ensures Upsert(Upsert(t, c), c') == Upsert(t, c')
  {
  }

  /** The descriptions of the commands filed under `order`, in that order. */
  function Jsons(entries: map<string, Command>, order: seq<string>): (body: seq<CommandJson>)
    requires forall k :: k in order ==> k in entries
    ensures |body| == |order|
    ensures forall i :: 0 <= i < |order| ==> body[i] == entries[order[i]].json
  {
    if order == [] then []
    else
      var n := |order| - 1;
      var init := order[..n];
      assert forall i :: 0 <= i < n ==> init[i] == order[i];
      Jsons(entries, init) + [entries[order[n]].json]
  }

  /**
    The request body `Register` collects: for each name in insertion
    order, the description of the command filed under it, which carries
    that name.
   */
  function Payload(t: Table): (body: seq<CommandJson>)
    requires Valid(t)
    ensures |body| == |t.order|
    ensures forall i :: 0 <= i < |t.order| ==> body[i] == t.entries[t.order[i]].json && body[i].name == t.order[i]
  {
    Jsons(t.entries, t.order)
  }

  /**
    The payload holds exactly one description per registered name, the one
    of the latest registration under that name, in first-insertion order;
    its names are pairwise distinct and it is empty only for an empty table.
   */
  lemma PayloadExact(t: Table)
    requires Valid(t)
    ensures |Payload(t)| == |t.entries| == |t.order|
    ensures forall i :: 0 <= i < |t.order| ==> Payload(t)[i] == t.entries[t.order[i]].json
    ensures forall i :: 0 <= i < |t.order| ==> Payload(t)[i].name == t.order[i]
    ensures forall i, j :: 0 <= i < j < |t.order| ==> Payload(t)[i].name != Payload(t)[j].name
    ensures Payload(t) == [] <==> t.entries == map[]
  {
    DistinctCardinality(t.order);
    assert t.entries.Keys == Elements(t.order);
  }

  /** The registry; the source keeps one process-wide instance. */
  class CommandCollection {
    var commandsMap: map<string, Command>
    var order: seq<string>

    /** The abstract value of the registry. */
    function Contents(): Table
      reads this
    {
      Table(commandsMap, order)
    }

    ghost predicate Invariant()
      reads this
    {
      Valid(Contents())
    }

    constructor ()
      ensures Invariant() && Contents() == Table(map[], [])
    {
      commandsMap := map[];
      order := [];
    }

    /** Files `c` under its name, replacing any earlier command of that name. */
    method Use(c: Command)
      requires Invariant()
      modifies this
      ensures Invariant()
      ensures Contents() == Upsert(old(Contents()), c)
    {
      var name := c.json.name;
      if name !in commandsMap {
        order := order + [name];
      }
      commandsMap := commandsMap[name := c];
    }

    /**
      Dispatches an invocation. An unknown name calls nothing and sends
      nothing. Otherwise the handler runs; if it throws and the interaction
      has not been replied to, exactly one generic reply is sent, and in
      every other case the registry sends nothing.
     */
    method Handle(interaction: Interaction) returns (invoked: bool, reply: Option<string>)
      ensures invoked <==> interaction.commandName in commandsMap
      ensures reply.Some? <==>
                invoked &&
                var outcome := commandsMap[interaction.commandName].handler(interaction);
                outcome.Threw? && !outcome.replied
      ensures reply.Some? ==> reply.value == InternalErrorReply
    {
      invoked, reply := false, None;
      if interaction.commandName in commandsMap {
        invoked := true;
        var outcome := commandsMap[interaction.commandName].handler(interaction);
        if outcome.Threw? && !outcome.replied {
          reply := Some(InternalErrorReply);
        }
      }
    }

    /**
      Collects every registered description in insertion order; refuses an
      empty table before any request, and otherwise yields the one request
      it would send. The table is not changed.
     */
    method Register(token: string, clientId: string, guildId: string) returns (r: Result<Put, RegisterError>)
      requires Invariant()
      ensures r.Failure? <==> commandsMap == map[]
      ensures r.Failure? ==> r.error == NoCommands && RegisterErrorText(r.error) == "no commands to register to guild."
      ensures r.Success? ==> r.value == Put(token, ApplicationGuildCommands(clientId, guildId), Payload(Contents()))
    {
      var commands: seq<CommandJson> := [];
      var i := 0;
      while i < |order|
        invariant 0 <= i <= |order|
        invariant commands == Jsons(commandsMap, order[..i])
      {
        assert order[..i + 1][..i] == order[..i];
        commands := commands + [commandsMap[order[i]].json];
        i := i + 1;
      }
      assert order[..i] == order;
      PayloadExact(Contents());
      if |commands| == 0 {
        return Failure(NoCommands);
      }
      return Success(Put(token, ApplicationGuildCommands(clientId, guildId), commands));
    }
  }
}
