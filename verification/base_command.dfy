/** Path completion shared by the view-variables console commands.

    The completion is a pure function of the argument tokens, whether this
    process is the client half of a client/server session, and two listings:
    the local path tree and the remote peer's. The remote listing is awaited in
    the source; here it is a function, and the result records whether it was
    queried and with what. */
module BaseCommand {
  import opened Wrappers

  /** The completion option flags this command uses. */
  datatype OptionFlags = NoFlags | PartialCompletion

  /** One suggested completion, with an optional human-readable hint. */
  datatype CompletionOption = CompletionOption(value: string, hint: Option<string>, flags: OptionFlags)

  /** The suggestions produced, and the path sent to the remote peer, if any. */
  datatype Completion = Completion(options: seq<CompletionOption>, remoteQuery: Option<string>)

  /** The prefix that selects client-side paths on a client. */
  const ClientPrefix: string := "/c"

  /** The hint on the option that switches to client-side paths. */
  const ClientHint: string := "Client-side paths"

  /** Ordinal prefix test. */
  predicate StartsWith(s: string, prefix: string)
  {
    |prefix| <= |s| && s[..|prefix|] == prefix
  }

  /** Each listed path, behind `prefix`, as a partial-completion option. */
  function Suggest(paths: seq<string>, prefix: string): (r: seq<CompletionOption>)
    ensures |r| == |paths|
    ensures forall i :: 0 <= i < |r| ==>
              StartsWith(r[i].value, prefix) && r[i].value[|prefix|..] == paths[i] &&
              r[i].hint.None? && r[i].flags == PartialCompletion
  {
    if paths == [] then []
    else [CompletionOption(prefix + paths[0], None, PartialCompletion)] + Suggest(paths[1..], prefix)
  }

  /** Completes the single argument of a view-variables command.
      - any arity other than one: nothing;
      - on a client, an argument starting with `/c`: the local listing of the rest
        of the argument, each entry behind `/c`, and no remote query;
      - on a client, any other argument: the remote listing of the argument, then
        one `/c` option hinting at the client-side paths;
      - elsewhere: the local listing of the argument as it is. */
  function GetCompletion(args: seq<string>, isClient: bool,
                         listPath: string -> seq<string>, listRemotePath: string -> seq<string>)
    : (c: Completion)
    ensures forall i :: 0 <= i < |c.options| ==> c.options[i].flags == PartialCompletion
    ensures |args| != 1 ==> c.options == [] && c.remoteQuery.None?
    ensures |args| == 1 && isClient && StartsWith(args[0], ClientPrefix) ==>
              && c.remoteQuery.None?
              && |c.options| == |listPath(args[0][2..])|
              && forall i :: 0 <= i < |c.options| ==>
                   c.options[i] == CompletionOption(ClientPrefix + listPath(args[0][2..])[i], None, PartialCompletion)
    ensures |args| == 1 && isClient && !StartsWith(args[0], ClientPrefix) ==>
              && c.remoteQuery == Some(args[0])
              && |c.options| == |listRemotePath(args[0])| + 1
              && (forall i :: 0 <= i < |listRemotePath(args[0])| ==>
                    c.options[i] == CompletionOption(listRemotePath(args[0])[i], None, PartialCompletion))
              && c.options[|c.options| - 1] == CompletionOption(ClientPrefix, Some(ClientHint), PartialCompletion)
    ensures |args| == 1 && !isClient ==>
              && c.remoteQuery.None?
              && |c.options| == |listPath(args[0])|
              && forall i :: 0 <= i < |c.options| ==>
                   c.options[i] == CompletionOption(listPath(args[0])[i], None, PartialCompletion)
  {
    if |args| != 1 then Completion([], None)
    else
      var path := args[0];
      if isClient then
        if StartsWith(path, ClientPrefix) then
          Completion(Suggest(listPath(path[2..]), ClientPrefix), None)
        else
          Completion(Suggest(listRemotePath(path), "") + [CompletionOption(ClientPrefix, Some(ClientHint), PartialCompletion)],
                     Some(path))
      else
        Completion(Suggest(listPath(path), ""), None)
  }

  /** On a client, the client-side options strip back to the local listing:
      removing the `/c` from each suggestion gives the local tree's entries for
      the argument without its prefix, in order. */
  lemma ClientOptionsStripToLocal(path: string, listPath: string -> seq<string>, listRemotePath: string -> seq<string>)
    requires StartsWith(path, ClientPrefix)
    ensures var c := GetCompletion([path], true, listPath, listRemotePath);
            |c.options| == |listPath(path[2..])| &&
            forall i :: 0 <= i < |c.options| ==>
              StartsWith(c.options[i].value, ClientPrefix) && c.options[i].value[2..] == listPath(path[2..])[i]
  {
  }

  /** Choosing the trailing `/c` option of a server-side completion and
      completing again lists the client's root: the option leads into the
      client-side branch and never back to the remote peer. */
  lemma ClientOptionLeadsToLocalRoot(path: string, listPath: string -> seq<string>, listRemotePath: string -> seq<string>)
    requires !StartsWith(path, ClientPrefix)
    ensures var c := GetCompletion([path], true, listPath, listRemotePath);
            var next := GetCompletion([c.options[|c.options| - 1].value], true, listPath, listRemotePath);
            next.remoteQuery.None? && |next.options| == |listPath("")| &&
            forall i :: 0 <= i < |next.options| ==> next.options[i].value == ClientPrefix + listPath("")[i]
  {
  }

  /** The prefix test is a plain character prefix, not a path-segment test:
      `/cat` on a client is completed locally as `at`. */
  lemma PrefixTestIsPlain(listPath: string -> seq<string>, listRemotePath: string -> seq<string>)
    ensures var c := GetCompletion(["/cat"], true, listPath, listRemotePath);
            c.remoteQuery.None? && |c.options| == |listPath("at")| &&
            forall i :: 0 <= i < |c.options| ==> c.options[i].value == "/c" + listPath("at")[i]
  {
  }
}
