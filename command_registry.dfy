/**
 * The main-side command bridge of the isolated-extension API
 * (packages/isolated-extension-api/src/browser/command-registry-main.ts).
 *
 * The local command registry (the delegate) and the proxy to the extension
 * side are not part of this model: the delegate is represented by the
 * registrations it received and the disposable handles it handed out, the
 * proxy by the log of command ids sent to `executeContributedCommand`.
 */
module CommandRegistryMain {
  import opened Wrappers

  /** A command descriptor contributed by an extension. */
  datatype Command = Command(id: string, labelText: Option<string>)

  /** The handler the bridge registers with the delegate for a command. */
  datatype Handler = Handler(commandId: string)

  /** Registered handlers are always enabled. */
  function IsEnabled(h: Handler): (r: bool)
    ensures r
  {
    true
  }

  /** Registered handlers are always visible. */
  function IsVisible(h: Handler): (r: bool)
    ensures r
  {
    true
  }

  const NotImplemented := "Method not implemented."

  class CommandRegistryMainImpl {
    /** The `disposables` map: command id to the handle of its delegate registration. */
    var disposables: map<string, nat>
    /** Every call made to the delegate's `registerCommand`, in order. */
    var registrations: seq<(Command, Handler)>
    /** The delegate hands out handles 0, 1, 2, ... */
    var nextHandle: nat
    /** Handles whose `dispose` was called, in order. */
    var disposed: seq<nat>
    /** Command ids sent to the proxy's `executeContributedCommand`, in order. */
    var forwarded: seq<string>

    /** Handles in the map were issued by the delegate, are distinct, and none was disposed. */
    ghost predicate Valid()
      reads this
    {
      && (forall id | id in disposables :: disposables[id] < nextHandle)
      && (forall id1, id2 | id1 in disposables && id2 in disposables && id1 != id2 :: disposables[id1] != disposables[id2])
      && (forall i | 0 <= i < |disposed| :: disposed[i] < nextHandle)
      && (forall i, id | 0 <= i < |disposed| && id in disposables :: disposed[i] != disposables[id])
    }

    constructor ()
      ensures Valid()
      ensures disposables == map[] && registrations == [] && disposed == [] && forwarded == []
    {
      disposables := map[];
      registrations := [];
      nextHandle := 0;
      disposed := [];
      forwarded := [];
    }

    /**
     * Registers the command with the delegate and stores the returned handle
     * under the command id, replacing an earlier entry for that id (whose
     * registration is then no longer reachable from the map).
     */
    method RegisterCommand(command: Command)
      requires Valid()
      modifies this
      ensures Valid()
      ensures registrations == old(registrations) + [(command, Handler(command.id))]
      ensures disposables == old(disposables)[command.id := old(nextHandle)]
      ensures nextHandle == old(nextHandle) + 1
      ensures disposed == old(disposed) && forwarded == old(forwarded)
    {
      var handle := nextHandle;
      nextHandle := nextHandle + 1;
      registrations := registrations + [(command, Handler(command.id))];
      disposables := disposables[command.id := handle];
    }

    /** The registered handler's `execute`: whatever the arguments, only the command id is forwarded. */
    method ExecuteHandler<A>(h: Handler, args: seq<A>)
      modifies this
      ensures forwarded == old(forwarded) + [h.commandId]
      ensures disposables == old(disposables) && registrations == old(registrations)
      ensures nextHandle == old(nextHandle) && disposed == old(disposed)
    {
      forwarded := forwarded + [h.commandId];
    }

    /** Disposes and forgets the registration of `id` if there is one; otherwise changes nothing. */
    method UnregisterCommand(id: string)
      requires Valid()
      modifies this
      ensures Valid()
      ensures id in old(disposables) ==> disposed == old(disposed) + [old(disposables)[id]]
      ensures id !in old(disposables) ==> disposed == old(disposed)
      ensures disposables == old(disposables) - {id}
      ensures registrations == old(registrations) && nextHandle == old(nextHandle) && forwarded == old(forwarded)
    {
      if id in disposables {
        var dis := disposables[id];
        disposed := disposed + [dis];
        disposables := disposables - {id};
      }
    }

    /** Not implemented by the source: always fails. */
    method ExecuteCommand<A>(id: string, args: seq<A>) returns (r: Result<A>)
      ensures r == Failure(NotImplemented)
    {
      r := Failure(NotImplemented);
    }

    /** Not implemented by the source: always fails. */
    method GetCommands() returns (r: Result<seq<string>>)
      ensures r == Failure(NotImplemented)
    {
      r := Failure(NotImplemented);
    }
  }
}
