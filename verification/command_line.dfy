/** `createArgs`: the flat token list handed to Node.js, built from a
    configured `Builder`. The main script comes first, then the port and
    bind address, the log file if one is set, every server argument, and the
    default capabilities if any are set. */
module CommandLine {
  import opened Wrappers
  import opened JavaStrings
  import opened Capabilities
  import opened ServiceBuilder

  const DefaultCapabilitiesFlag: string := "--default-capabilities"

  /** What `createArgs` learns from its surroundings rather than from the
      builder: the `APPIUM_BINARY_PATH` system property and environment
      variable, which files exist, the script npm discovery would find,
      `File.getAbsolutePath`, whether the host runs Windows, and Gson's JSON
      serialisation of a capability map. */
  datatype Host = Host(
    appiumPathProperty: Option<string>,
    appiumPathEnv: Option<string>,
    fileExists: string -> bool,
    discoveredMainScript: Result<string, Error>,
    absolutePath: string -> string,
    isWindows: bool,
    toJson: Caps -> string)

  /** Discovery only ever reports a script that exists. */
  predicate ConsistentHost(host: Host) {
    host.discoveredMainScript.Ok? ==> host.fileExists(host.discoveredMainScript.value)
  }

  /** An iteration order of a `HashMap`: every key exactly once, in some order
      the model does not fix. */
  predicate IsEnumeration(order: seq<string>, m: map<string, Option<string>>) {
    && (forall i, j :: 0 <= i < j < |order| ==> order[i] != order[j])
    && (forall i :: 0 <= i < |order| ==> order[i] in m)
    && (forall k :: k in m ==> k in order)
  }

  /** A server argument that produces tokens: a non-empty flag with a non-null
      value. */
  predicate Emits(m: map<string, Option<string>>, k: string) {
    k in m && k != [] && m[k].Some?
  }

  /** The tokens one server argument contributes: nothing for an empty flag or
      a null value, the flag alone for an empty value, and the flag followed
      by its value otherwise. */
  function EntryTokens(key: string, value: Option<string>): (r: seq<string>)
    ensures r == [] <==> key == [] || value.None?
    ensures r != [] ==> r[0] == key && |r| <= 2
    ensures |r| == 2 <==> key != [] && value.Some? && value.value != []
    ensures |r| == 2 ==> r[1] == value.value
  {
    if key == [] || value.None? then []
    else if value.value == [] then [key]
    else [key, value.value]
  }

  /** The tokens of the argument stored under `k`; a key the map does not
      hold contributes nothing. */
  function KeyTokens(m: map<string, Option<string>>, k: string): seq<string> {
    if k in m then EntryTokens(k, m[k]) else []
  }

  /** The server-argument tokens, entry after entry in the given order. */
  function ArgTokens(m: map<string, Option<string>>, order: seq<string>): seq<string> {
    if order == [] then []
    else KeyTokens(m, order[0]) + ArgTokens(m, order[1..])
  }

  /** Each entry contributes at most two tokens, and exactly two for an
      entry with a non-empty value. */
  lemma {:induction false} ArgTokensLength(m: map<string, Option<string>>, order: seq<string>)
    ensures |ArgTokens(m, order)| <= 2 * |order|
    ensures (forall i :: 0 <= i < |order| ==> Emits(m, order[i]) && m[order[i]].value != [])
            ==> |ArgTokens(m, order)| == 2 * |order|
  {
    if order != [] {
      ArgTokensLength(m, order[1..]);
      assert forall i :: 1 <= i < |order| ==> order[i] == order[1..][i - 1];
    }
  }

  /** No server-argument token at all exactly when no entry in the order
      emits. */
  lemma {:induction false} ArgTokensEmptyIff(m: map<string, Option<string>>, order: seq<string>)
    ensures ArgTokens(m, order) == [] <==> forall i :: 0 <= i < |order| ==> !Emits(m, order[i])
  {
    if order != [] {
      ArgTokensEmptyIff(m, order[1..]);
      assert forall i :: 1 <= i < |order| ==> order[i] == order[1..][i - 1];
    }
  }

  /** The argument tokens of a concatenated order are the concatenated
      argument tokens. */
  lemma {:induction false} ArgTokensAppend(m: map<string, Option<string>>, a: seq<string>, b: seq<string>)
    ensures ArgTokens(m, a + b) == ArgTokens(m, a) + ArgTokens(m, b)
  {
    if a == [] {
      assert a + b == b;
    } else {
      assert (a + b)[0] == a[0];
      assert (a + b)[1..] == a[1..] + b;
      ArgTokensAppend(m, a[1..], b);
    }
  }

  /** The argument tokens split around any one entry. */
  lemma {:induction false} ArgTokensSplit(m: map<string, Option<string>>, order: seq<string>, i: nat)
    requires i < |order|
    ensures ArgTokens(m, order)
         == ArgTokens(m, order[..i]) + KeyTokens(m, order[i]) + ArgTokens(m, order[i + 1..])
  {
    var tail := [order[i]] + order[i + 1..];
    assert order == order[..i] + tail;
    ArgTokensAppend(m, order[..i], tail);
    assert tail[1..] == order[i + 1..];
  }

  /** The first server-argument token, if any, is a flag that emits. */
  lemma {:induction false} ArgTokensHead(m: map<string, Option<string>>, order: seq<string>)
    requires ArgTokens(m, order) != []
    ensures ArgTokens(m, order)[0] in order && Emits(m, ArgTokens(m, order)[0])
  {
    var e := KeyTokens(m, order[0]);
    if e == [] {
      ArgTokensHead(m, order[1..]);
    }
  }

  /** Where an emitting entry lands: its tokens sit right after those of the
      entries before it, the flag first and then its value if that is not
      empty, and whatever follows them starts with the flag of a later
      emitting entry. */
  lemma EntryPlacement(m: map<string, Option<string>>, order: seq<string>, i: nat)
    requires i < |order| && Emits(m, order[i])
    ensures var t := ArgTokens(m, order);
            var off := |ArgTokens(m, order[..i])|;
            var e := KeyTokens(m, order[i]);
            && off + |e| <= |t|
            && t[off..off + |e|] == e
            && t[off] == order[i]
            && (m[order[i]].value != [] ==> |e| == 2 && t[off + 1] == m[order[i]].value)
            && (m[order[i]].value == [] ==> |e| == 1)
            && (off + |e| < |t| ==> t[off + |e|] in order[i + 1..] && Emits(m, t[off + |e|]))
  {
    var before := ArgTokens(m, order[..i]);
    var e := KeyTokens(m, order[i]);
    var rest := ArgTokens(m, order[i + 1..]);
    ArgTokensSplit(m, order, i);
    ConcatIndex(before, e, rest);
    if rest != [] {
      ArgTokensHead(m, order[i + 1..]);
    }
  }

  /** Indexing into a three-part concatenation. */
  lemma ConcatIndex(x: seq<string>, y: seq<string>, z: seq<string>)
    ensures var s := x + y + z;
            && s[|x|..|x| + |y|] == y
            && (forall j :: 0 <= j < |y| ==> s[|x| + j] == y[j])
            && (z != [] ==> s[|x| + |y|] == z[0])
  {
  }

  /** A flag stored with a non-empty value appears in the argument tokens
      immediately followed by that value. */
  lemma ValueFollowsFlag(m: map<string, Option<string>>, order: seq<string>, k: string)
    requires IsEnumeration(order, m) && Emits(m, k) && m[k].value != []
    ensures var t := ArgTokens(m, order);
            exists j :: 0 <= j && j + 1 < |t| && t[j] == k && t[j + 1] == m[k].value
  {
    var i :| 0 <= i < |order| && order[i] == k;
    EntryPlacement(m, order, i);
    var off := |ArgTokens(m, order[..i])|;
    var t := ArgTokens(m, order);
    assert off + 1 < |t| && t[off] == k && t[off + 1] == m[k].value;
  }

  /** A flag stored with the empty value appears in the argument tokens alone:
      the token after it, if any, is the flag of another emitting entry, not
      a value. */
  lemma FlagWithoutValueStandsAlone(m: map<string, Option<string>>, order: seq<string>, k: string)
    requires IsEnumeration(order, m) && Emits(m, k) && m[k].value == []
    ensures var t := ArgTokens(m, order);
            exists j :: 0 <= j < |t| && t[j] == k && (j + 1 == |t| || (Emits(m, t[j + 1]) && t[j + 1] != k))
  {
    var i :| 0 <= i < |order| && order[i] == k;
    EntryPlacement(m, order, i);
    var off := |ArgTokens(m, order[..i])|;
    var t := ArgTokens(m, order);
    if off + 1 < |t| {
      var next := t[off + 1];
      assert next in order[i + 1..];
      var n :| i + 1 <= n < |order| && order[n] == next;
    }
    assert t[off] == k;
  }

  /** An entry with an empty flag or a null value contributes nothing:
      leaving it out of the order gives the same tokens. */
  lemma SilentEntryContributesNothing(m: map<string, Option<string>>, order: seq<string>, i: nat)
    requires i < |order| && !Emits(m, order[i])
    ensures ArgTokens(m, order) == ArgTokens(m, order[..i] + order[i + 1..])
  {
    ArgTokensSplit(m, order, i);
    ArgTokensAppend(m, order[..i], order[i + 1..]);
  }

  /** Removing the element at `i` removes one occurrence of it. */
  lemma RemoveAtMultiset(s: seq<string>, i: nat)
    requires i < |s|
    ensures multiset(s[..i] + s[i + 1..]) == multiset(s) - multiset{s[i]}
  {
    assert s == s[..i] + [s[i]] + s[i + 1..];
  }

  /** Taking one entry out of the order takes exactly its tokens out of the
      argument tokens. */
  lemma ArgTokensRemoveAt(m: map<string, Option<string>>, order: seq<string>, i: nat)
    requires i < |order|
    ensures multiset(ArgTokens(m, order))
         == multiset(KeyTokens(m, order[i])) + multiset(ArgTokens(m, order[..i] + order[i + 1..]))
  {
    ArgTokensSplit(m, order, i);
    ArgTokensAppend(m, order[..i], order[i + 1..]);
  }

  /** Reordering the entries permutes the tokens: the same tokens come out,
      as many times each, whatever the order. */
  lemma {:induction false} ArgTokensPermutation(m: map<string, Option<string>>, o1: seq<string>, o2: seq<string>)
    requires multiset(o1) == multiset(o2)
    ensures multiset(ArgTokens(m, o1)) == multiset(ArgTokens(m, o2))
    decreases |o1|
  {
    if o1 == [] {
      assert |o2| == |multiset(o2)| == 0;
    } else {
      var k := o1[0];
      assert k in multiset(o2);
      var i :| 0 <= i < |o2| && o2[i] == k;
      var o2' := o2[..i] + o2[i + 1..];
      RemoveAtMultiset(o2, i);
      RemoveAtMultiset(o1, 0);
      assert o1[..0] + o1[1..] == o1[1..];
      ArgTokensPermutation(m, o1[1..], o2');
      ArgTokensRemoveAt(m, o2, i);
      assert ArgTokens(m, o1) == KeyTokens(m, k) + ArgTokens(m, o1[1..]);
    }
  }

  /** A sequence without repetitions holds each of its elements once. */
  lemma {:induction false} DistinctMultiplicity(s: seq<string>, x: string)
    requires forall i, j :: 0 <= i < j < |s| ==> s[i] != s[j]
    ensures multiset(s)[x] == if x in s then 1 else 0
  {
    if s != [] {
      assert s == [s[0]] + s[1..];
      DistinctMultiplicity(s[1..], x);
      if x == s[0] {
        assert x !in s[1..];
      }
    }
  }

  /** Any two iteration orders of the argument map yield the same tokens, up
      to order. */
  lemma ArgTokensOrderIndependent(m: map<string, Option<string>>, o1: seq<string>, o2: seq<string>)
    requires IsEnumeration(o1, m) && IsEnumeration(o2, m)
    ensures multiset(ArgTokens(m, o1)) == multiset(ArgTokens(m, o2))
  {
    forall x
      ensures multiset(o1)[x] == multiset(o2)[x]
    {
      DistinctMultiplicity(o1, x);
      DistinctMultiplicity(o2, x);
    }
    ArgTokensPermutation(m, o1, o2);
  }

  // ---------------------------------------------------------------------------
  // The whole argument list
  // ---------------------------------------------------------------------------

  /** The main script `createArgs` resolves before anything else. */
  function MainScript(b: Builder, host: Host): Result<string, Error> {
    ResolveMainScript(b.appiumJS, host.appiumPathProperty, host.appiumPathEnv,
                      host.fileExists, host.discoveredMainScript)
  }

  /** The bind address put on the command line: the broadcast address when
      none, or an empty one, is configured. */
  function EffectiveAddress(b: Builder): (a: string)
    ensures a != []
    ensures IsNullOrEmpty(b.ipAddress) ==> a == BroadcastIp4Address
    ensures !IsNullOrEmpty(b.ipAddress) ==> a == b.ipAddress.value
  {
    if IsNullOrEmpty(b.ipAddress) then BroadcastIp4Address else b.ipAddress.value
  }

  function LogTokens(b: Builder, host: Host): seq<string> {
    if b.logFile.Some? then [LogFlag, host.absolutePath(b.logFile.value)] else []
  }

  function CapabilityTokens(b: Builder, host: Host): seq<string> {
    match b.capabilities
    case None => []
    case Some(cs) =>
      [DefaultCapabilitiesFlag,
       CapabilitiesToCmdlineArg(cs, b.autoQuoteCapabilitiesOnWindows, host.isWindows, host.toJson)]
  }

  /** The argument list as a whole: refused when the main script cannot be
      resolved; otherwise the script, port and address, the log-file pair if a
      log file is set, the server-argument tokens, and the capability pair if
      capabilities are set, in that order. */
  function Args(b: Builder, host: Host, order: seq<string>): (r: Result<seq<string>, Error>)
    requires IsEnumeration(order, b.serverArguments)
    ensures r.Err? <==> MainScript(b, host).Err?
    ensures r.Err? ==> r.error == MainScript(b, host).error
    ensures r.Ok? ==>
              var a := r.value;
              var args := ArgTokens(b.serverArguments, order);
              var log := if b.logFile.Some? then 2 else 0;
              var caps := if b.capabilities.Some? then 2 else 0;
              && |a| == 5 + log + |args| + caps
              && a[..5] == [host.absolutePath(MainScript(b, host).value), PortFlag, NatToString(b.port),
                            AddressFlag, EffectiveAddress(b)]
              && (b.logFile.Some? ==> a[5] == LogFlag && a[6] == host.absolutePath(b.logFile.value))
              && a[5 + log..5 + log + |args|] == args
              && (b.capabilities.Some? ==>
                    && a[|a| - 2] == DefaultCapabilitiesFlag
                    && a[|a| - 1] == CapabilitiesToCmdlineArg(b.capabilities.value, b.autoQuoteCapabilitiesOnWindows,
                                                              host.isWindows, host.toJson))
  {
    match MainScript(b, host)
    case Err(e) => Err(e)
    case Ok(script) =>
      var head := HeadTokens(b, host, script);
      var args := ArgTokens(b.serverArguments, order);
      var a := head + args + CapabilityTokens(b, host);
      assert a[|head|..|head| + |args|] == args;
      Ok(a)
  }

  /** The builder as `createArgs` leaves it: the resolved script and the
      effective address are written back. */
  function AfterCreateArgs(b: Builder, script: string): Builder {
    b.(appiumJS := Some(script), ipAddress := Some(EffectiveAddress(b)))
  }

  /** The fixed head of the list: script, port, address and, when a log file
      is set, the log-file pair. */
  function HeadTokens(b: Builder, host: Host, script: string): seq<string> {
    [host.absolutePath(script), PortFlag, NatToString(b.port), AddressFlag, EffectiveAddress(b)]
    + LogTokens(b, host)
  }

  /** With the script resolved, the argument list is the head, the
      server-argument tokens and the capability pair. */
  lemma ArgsParts(b: Builder, host: Host, order: seq<string>)
    requires IsEnumeration(order, b.serverArguments) && MainScript(b, host).Ok?
    ensures Args(b, host, order)
         == Ok(HeadTokens(b, host, MainScript(b, host).value) + ArgTokens(b.serverArguments, order)
               + CapabilityTokens(b, host))
  {
  }

  /** The head of `createArgs`: the address falls back to the broadcast
      address, which is also what is written back. */
  method AppendHead(b: Builder, host: Host, script: string) returns (argList: seq<string>, address: Option<string>)
    ensures argList == HeadTokens(b, host, script)
    ensures address == Some(EffectiveAddress(b))
  {
    argList := [host.absolutePath(script), PortFlag, NatToString(b.port)];
    address := b.ipAddress;
    if IsNullOrEmpty(address) {
      address := Some(BroadcastIp4Address);
    }
    argList := argList + [AddressFlag, address.value];
    if b.logFile.Some? {
      argList := argList + [LogFlag, host.absolutePath(b.logFile.value)];
    }
  }

  /** The loop of `createArgs` over the server arguments: each flag with a
      non-null value is appended, followed by the value unless it is empty. */
  method AppendServerArguments(argList: seq<string>, m: map<string, Option<string>>, order: seq<string>)
    returns (out: seq<string>)
    requires forall j :: 0 <= j < |order| ==> order[j] in m
    ensures out == argList + ArgTokens(m, order)
  {
    out := argList;
    var i := 0;
    while i < |order|
      invariant 0 <= i <= |order|
      invariant out == argList + ArgTokens(m, order[..i])
    {
      var argument := order[i];
      var value := m[argument];
      ArgTokensPrefixStep(m, order, i);
      ghost var before := out;
      if !(argument == [] || value.None?) {
        out := out + [argument];
        if !IsNullOrEmpty(value) {
          out := out + [value.value];
        }
      }
      assert out == before + EntryTokens(argument, value);
      assert out == argList + (ArgTokens(m, order[..i]) + EntryTokens(argument, value));
      i := i + 1;
    }
    assert order[..|order|] == order;
  }

  /** One more entry of the order adds that entry's tokens. */
  lemma ArgTokensPrefixStep(m: map<string, Option<string>>, order: seq<string>, i: nat)
    requires i < |order| && order[i] in m
    ensures ArgTokens(m, order[..i + 1]) == ArgTokens(m, order[..i]) + EntryTokens(order[i], m[order[i]])
  {
    assert order[..i + 1] == order[..i] + [order[i]];
    ArgTokensAppend(m, order[..i], [order[i]]);
    assert [order[i]][1..] == [];
  }

  /** The capability pair of `createArgs`, serialised with quoting on Windows
      when asked to, and as JSON otherwise. */
  method AppendCapabilities(argList: seq<string>, b: Builder, host: Host) returns (out: seq<string>)
    ensures out == argList + CapabilityTokens(b, host)
  {
    out := argList;
    if b.capabilities.Some? {
      var serialised;
      if b.autoQuoteCapabilitiesOnWindows && host.isWindows {
        serialised := CapabilitiesToQuotedCmdlineArg(b.capabilities);
      } else {
        serialised := host.toJson(b.capabilities.value);
      }
      out := out + [DefaultCapabilitiesFlag, serialised];
    }
  }

  /** `createArgs`: resolves the main script, then builds the list piece by
      piece as the source does. Returns the argument list (or the error that
      stopped it) and the builder with the resolved script and effective
      address written back. */
  method CreateArgs(b: Builder, host: Host, order: seq<string>) returns (r: Result<seq<string>, Error>, b': Builder)
    requires IsEnumeration(order, b.serverArguments)
    ensures r == Args(b, host, order)
    ensures r.Ok? ==> b' == AfterCreateArgs(b, MainScript(b, host).value)
    ensures r.Err? ==> b' == b
  {
    var script := MainScript(b, host);
    if script.Err? {
      return Err(script.error), b;
    }
    var argList, address := AppendHead(b, host, script.value);
    argList := AppendServerArguments(argList, b.serverArguments, order);
    argList := AppendCapabilities(argList, b, host);
    ArgsParts(b, host, order);
    r := Ok(argList);
    b' := b.(appiumJS := Some(script.value), ipAddress := address);
  }

  // ---------------------------------------------------------------------------
  // Properties of the argument list
  // ---------------------------------------------------------------------------

  /** With the dedicated fields as the only record of the log file, `--log`
      follows the address exactly when a log file is set. */
  lemma LogFlagIffLogFile(b: Builder, host: Host, order: seq<string>)
    requires IsEnumeration(order, b.serverArguments) && NoInterceptedArguments(b)
    requires Args(b, host, order).Ok?
    ensures var a := Args(b, host, order).value;
            (|a| > 5 && a[5] == LogFlag) <==> b.logFile.Some?
  {
    var a := Args(b, host, order).value;
    var args := ArgTokens(b.serverArguments, order);
    if b.logFile.None? && |a| > 5 {
      if args != [] {
        ArgTokensHead(b.serverArguments, order);
        assert a[5] == args[0];
        assert args[0] in b.serverArguments;
      } else {
        assert a[5] == DefaultCapabilitiesFlag;
      }
    }
  }

  /** A flag stored without value shows up among the server arguments, after
      the address, with no value token of its own: what follows it is the
      capability flag, another emitting server argument, or nothing. */
  lemma FlagAloneInArgs(b: Builder, flag: string, host: Host, order: seq<string>)
    requires IsEnumeration(order, b.serverArguments) && MainScript(b, host).Ok?
    requires Emits(b.serverArguments, flag) && b.serverArguments[flag].value == []
    ensures var a := Args(b, host, order).value;
            exists j :: 5 <= j < |a| && a[j] == flag &&
              (j + 1 == |a| || a[j + 1] == DefaultCapabilitiesFlag ||
               (Emits(b.serverArguments, a[j + 1]) && a[j + 1] != flag))
  {
    var m := b.serverArguments;
    var args := ArgTokens(m, order);
    FlagWithoutValueStandsAlone(m, order, flag);
    var j :| 0 <= j < |args| && args[j] == flag && (j + 1 == |args| || (Emits(m, args[j + 1]) && args[j + 1] != flag));
    ArgsParts(b, host, order);
    var head := HeadTokens(b, host, MainScript(b, host).value);
    var caps := CapabilityTokens(b, host);
    FollowerInConcat(head, args, caps, j);
    var a := head + args + caps;
    assert caps != [] ==> caps[0] == DefaultCapabilitiesFlag;
    assert 5 <= |head| + j < |a| && a[|head| + j] == flag;
  }

  /** In particular for a flag added through the value-less `withArgument`. */
  lemma WithFlagEmitsFlagAlone(b: Builder, flag: string, host: Host, order: seq<string>)
    requires flag != []
    requires IsEnumeration(order, WithFlag(b, flag).serverArguments)
    requires MainScript(b, host).Ok?
    ensures var b' := WithFlag(b, flag);
            var a := Args(b', host, order).value;
            exists j :: 5 <= j < |a| && a[j] == flag &&
              (j + 1 == |a| || a[j + 1] == DefaultCapabilitiesFlag ||
               (Emits(b'.serverArguments, a[j + 1]) && a[j + 1] != flag))
  {
    FlagAloneInArgs(WithFlag(b, flag), flag, host, order);
  }

  /** Because the value-less `withArgument` does not intercept, adding
      `--port` that way puts the flag on the command line twice: once with
      the port after the script, and once more, alone, among the server
      arguments. */
  lemma PortFlagWithoutValueRepeats(b: Builder, host: Host, order: seq<string>)
    requires IsEnumeration(order, WithFlag(b, PortFlag).serverArguments)
    requires MainScript(b, host).Ok?
    ensures var b' := WithFlag(b, PortFlag);
            var a := Args(b', host, order).value;
            && a[1] == PortFlag && a[2] == NatToString(b.port)
            && exists j :: 5 <= j < |a| && a[j] == PortFlag &&
                 (j + 1 == |a| || a[j + 1] == DefaultCapabilitiesFlag ||
                  (Emits(b'.serverArguments, a[j + 1]) && a[j + 1] != PortFlag))
  {
    var b' := WithFlag(b, PortFlag);
    WithFlagEmitsFlagAlone(b, PortFlag, host, order);
    var a := Args(b', host, order).value;
    assert a[1] == a[..5][1] && a[2] == a[..5][2];
  }

  /** Passing `--default-capabilities` through the two-argument
      `withArgument` is not intercepted: a builder without capabilities then
      ends its list with the same two tokens that set capabilities produce. */
  lemma CapabilityFlagWithoutCapabilities(host: Host, v: string)
    requires v != [] && MainScript(NewBuilder(), host).Ok?
    ensures WithArgument(NewBuilder(), DefaultCapabilitiesFlag, Some(v)).Ok?
    ensures var b := WithArgument(NewBuilder(), DefaultCapabilitiesFlag, Some(v)).value;
            && b.capabilities.None?
            && IsEnumeration([DefaultCapabilitiesFlag], b.serverArguments)
            && var a := Args(b, host, [DefaultCapabilitiesFlag]).value;
               |a| >= 2 && a[|a| - 2] == DefaultCapabilitiesFlag && a[|a| - 1] == v
  {
    InterceptedFlagsDistinct();
    assert DefaultCapabilitiesFlag !in InterceptedFlags && DefaultCapabilitiesFlag != BasePathFlag;
    var b := WithArgument(NewBuilder(), DefaultCapabilitiesFlag, Some(v)).value;
    assert b.serverArguments == map[DefaultCapabilitiesFlag := Some(v)];
    assert ArgTokens(b.serverArguments, [DefaultCapabilitiesFlag]) == [DefaultCapabilitiesFlag, v] by {
      assert [DefaultCapabilitiesFlag][1..] == [];
    }
  }

  /** When neither a server argument nor the address or log path spells
      `--default-capabilities`, the list ends with that flag and a value
      exactly when capabilities are set. */
  lemma CapabilityFlagIffCapabilities(b: Builder, host: Host, order: seq<string>)
    requires IsEnumeration(order, b.serverArguments) && Args(b, host, order).Ok?
    requires forall k :: k in b.serverArguments ==>
               k != DefaultCapabilitiesFlag && b.serverArguments[k] != Some(DefaultCapabilitiesFlag)
    requires EffectiveAddress(b) != DefaultCapabilitiesFlag
    requires b.logFile.Some? ==> host.absolutePath(b.logFile.value) != DefaultCapabilitiesFlag
    ensures var a := Args(b, host, order).value;
            (|a| >= 2 && a[|a| - 2] == DefaultCapabilitiesFlag) <==> b.capabilities.Some?
  {
    if b.capabilities.None? {
      var head := HeadTokens(b, host, MainScript(b, host).value);
      ArgsParts(b, host, order);
      assert DefaultCapabilitiesFlag !in head[3..];
      ArgTokensAvoid(b.serverArguments, order, DefaultCapabilitiesFlag);
      NextToLastAvoids(head, ArgTokens(b.serverArguments, order), DefaultCapabilitiesFlag);
    }
  }

  /** A token absent from both the arguments and the head past its third
      token is not the next-to-last token of their concatenation. */
  lemma NextToLastAvoids(head: seq<string>, args: seq<string>, x: string)
    requires |head| >= 5 && x !in head[3..] && x !in args
    ensures var a := head + args; |a| >= 2 && a[|a| - 2] != x
  {
    var a := head + args;
    var tail := head[3..] + args;
    assert a == head[..3] + tail;
    assert a[|a| - 2] == tail[|tail| - 2];
  }

  /** A token that is neither a key nor a value of the entries in the order
      is not among their server-argument tokens. */
  lemma {:induction false} ArgTokensAvoid(m: map<string, Option<string>>, order: seq<string>, x: string)
    requires forall i :: 0 <= i < |order| ==> order[i] != x && (order[i] in m ==> m[order[i]] != Some(x))
    ensures x !in ArgTokens(m, order)
  {
    if order != [] {
      ArgTokensAvoid(m, order[1..], x);
    }
  }

  /** When no script is configured anywhere and npm discovery fails, the
      whole list fails with that error. */
  lemma DiscoveryFailureFailsArgs(b: Builder, host: Host, order: seq<string>)
    requires IsEnumeration(order, b.serverArguments)
    requires b.appiumJS.None? && IsNullOrEmpty(host.appiumPathProperty) && IsNullOrEmpty(host.appiumPathEnv)
    requires host.discoveredMainScript == Err(DiscoveryFailed)
    ensures Args(b, host, order) == Err(DiscoveryFailed)
  {
  }

  /** Clearing the script with `withAppiumJS(null)` sends `createArgs` back
      to the environment and discovery. */
  lemma ClearedScriptFallsBack(b: Builder, host: Host)
    ensures MainScript(WithAppiumJS(b, None), host)
         == ResolveMainScript(None, host.appiumPathProperty, host.appiumPathEnv,
                              host.fileExists, host.discoveredMainScript)
  {
  }

  /** Clearing the log file with `withLogFile(null)` drops the `--log` pair. */
  lemma ClearedLogFileDropsLogPair(b: Builder, host: Host, order: seq<string>)
    requires IsEnumeration(order, b.serverArguments)
    ensures Args(WithLogFile(b, None), host, order).Ok? ==>
              var a := Args(WithLogFile(b, None), host, order).value;
              |a| == 5 + |ArgTokens(b.serverArguments, order)| + (if b.capabilities.Some? then 2 else 0)
  {
  }

  /** The token after position `j` of the middle part of a three-part
      concatenation is the next token of the middle part, else the first of
      the last part, else there is none. */
  lemma FollowerInConcat(x: seq<string>, y: seq<string>, z: seq<string>, j: nat)
    requires j < |y|
    ensures var s := x + y + z;
            && s[|x| + j] == y[j]
            && (j + 1 < |y| ==> s[|x| + j + 1] == y[j + 1])
            && (j + 1 == |y| && z != [] ==> s[|x| + j + 1] == z[0])
            && (j + 1 == |y| && z == [] ==> |x| + j + 1 == |s|)
  {
  }

  /** `withIPAddress` decides the address token: the given address, or the
      broadcast address for null or empty. */
  lemma AddressToken(b: Builder, address: Option<string>, host: Host, order: seq<string>)
    requires IsEnumeration(order, b.serverArguments)
    requires Args(WithIPAddress(b, address), host, order).Ok?
    ensures var a := Args(WithIPAddress(b, address), host, order).value;
            && a[3] == AddressFlag
            && a[4] == (if IsNullOrEmpty(address) then BroadcastIp4Address else address.value)
  {
    var a := Args(WithIPAddress(b, address), host, order).value;
    assert a[3] == a[..5][3] && a[4] == a[..5][4];
  }

  /** Building again from the builder `createArgs` leaves behind gives the
      same list: writing back the script and the address changes nothing. */
  lemma CreateArgsIsStable(b: Builder, host: Host, order: seq<string>)
    requires IsEnumeration(order, b.serverArguments) && ConsistentHost(host)
    requires Args(b, host, order).Ok?
    ensures var b' := AfterCreateArgs(b, MainScript(b, host).value);
            && Args(b', host, order) == Args(b, host, order)
            && AfterCreateArgs(b', MainScript(b', host).value) == b'
  {
    var script := MainScript(b, host).value;
    assert host.fileExists(script);
  }
}
