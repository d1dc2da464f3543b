/** The sections of the login file as an ordered map: what each command of the editor does to it
    (client/mysql_config_editor.cc). */
module LoginMap {
  import opened Text
  import opened LoginText
  import opened LoginEdits
  import opened LoginCommands

  // ---------- the map ----------

  ghost predicate DistinctKeys(es: seq<Entry>) { forall i, j :: 0 <= i < j < |es| ==> es[i].key != es[j].key }

  ghost predicate DistinctNames(ss: seq<Section>) { forall i, j :: 0 <= i < j < |ss| ==> ss[i].name != ss[j].name }

  ghost predicate IsMap(ss: seq<Section>) {
    DistinctNames(ss) && forall i :: 0 <= i < |ss| ==> DistinctKeys(ss[i].entries)
  }

  /** All sections but those of a name. */
  ghost function Others(ss: seq<Section>, name: string): seq<Section> {
    if ss == [] then []
    else if ss[0].name == name then Others(ss[1..], name)
    else [ss[0]] + Others(ss[1..], name)
  }

  /** All options but those of the keys. */
  ghost function Kept(es: seq<Entry>, keys: set<string>): seq<Entry> {
    if es == [] then []
    else if es[0].key in keys then Kept(es[1..], keys)
    else [es[0]] + Kept(es[1..], keys)
  }

  ghost function Trimmed(s: Section, name: string, keys: set<string>): Section {
    if s.name == name then s.(entries := Kept(s.entries, keys)) else s
  }

  ghost function TrimmedAll(ss: seq<Section>, name: string, keys: set<string>): seq<Section> {
    seq(|ss|, i requires 0 <= i < |ss| => Trimmed(ss[i], name, keys))
  }

  // ---------- first occurrence and filter ----------

  lemma {:induction false} OthersNone(ss: seq<Section>, name: string)
    requires forall i :: 0 <= i < |ss| ==> ss[i].name != name
    ensures Others(ss, name) == ss
    decreases |ss|
  {
    if ss != [] { OthersNone(ss[1..], name); }
  }

  lemma RemoveBehindHead<T>(s: seq<T>, i: nat)
    requires s != [] && i < |s|
    ensures s[..0] + s[1..] == s[1..]
    ensures var rest := s[1..];
            [s[0]] + (if i < |rest| then rest[..i] + rest[i + 1..] else rest) ==
            if i + 1 < |s| then s[..i + 1] + s[i + 2..] else s
  {
  }

  lemma FindBehindHead(ss: seq<Section>, name: string)
    requires ss != []
    ensures Find(ss, name) == if ss[0].name == name then 0 else 1 + Find(ss[1..], name)
  {
  }

  lemma WithoutBehindHead(ss: seq<Section>, name: string)
    requires ss != []
    ensures Without(ss, name) == if ss[0].name == name then ss[1..] else [ss[0]] + Without(ss[1..], name)
  {
    hide Find;
    FindBehindHead(ss, name);
    RemoveBehindHead(ss, Find(ss[1..], name));
  }

  lemma DistinctTail(ss: seq<Section>)
    requires DistinctNames(ss) && ss != []
    ensures DistinctNames(ss[1..]) && forall i :: 0 <= i < |ss[1..]| ==> ss[1..][i].name != ss[0].name
  {
    assert forall i :: 0 <= i < |ss[1..]| ==> ss[1..][i] == ss[i + 1];
  }

  lemma {:induction false} WithoutIsOthers(ss: seq<Section>, name: string)
    requires DistinctNames(ss)
    ensures Without(ss, name) == Others(ss, name)
    decreases |ss|
  {
    if ss != [] {
      hide Without, DistinctNames;
      WithoutBehindHead(ss, name);
      DistinctTail(ss);
      if ss[0].name == name { OthersNone(ss[1..], name); } else { WithoutIsOthers(ss[1..], name); }
    }
  }

  lemma {:induction false} KeptAll(es: seq<Entry>, keys: set<string>)
    requires forall i :: 0 <= i < |es| ==> es[i].key !in keys
    ensures Kept(es, keys) == es
    decreases |es|
  {
    if es != [] { KeptAll(es[1..], keys); }
  }

  lemma FindKeyBehindHead(es: seq<Entry>, key: string)
    requires es != []
    ensures FindKey(es, key) == if es[0].key == key then 0 else 1 + FindKey(es[1..], key)
  {
  }

  lemma WithoutKeyBehindHead(es: seq<Entry>, key: string)
    requires es != []
    ensures WithoutKey(es, key) == if es[0].key == key then es[1..] else [es[0]] + WithoutKey(es[1..], key)
  {
    hide FindKey;
    FindKeyBehindHead(es, key);
    RemoveBehindHead(es, FindKey(es[1..], key));
  }

  lemma DistinctKeysTail(es: seq<Entry>)
    requires DistinctKeys(es) && es != []
    ensures DistinctKeys(es[1..]) && forall i :: 0 <= i < |es[1..]| ==> es[1..][i].key != es[0].key
  {
    assert forall i :: 0 <= i < |es[1..]| ==> es[1..][i] == es[i + 1];
  }

  lemma {:induction false} WithoutKeyIsKept(es: seq<Entry>, key: string)
    requires DistinctKeys(es)
    ensures WithoutKey(es, key) == Kept(es, {key})
    decreases |es|
  {
    if es != [] {
      hide WithoutKey, DistinctKeys;
      WithoutKeyBehindHead(es, key);
      DistinctKeysTail(es);
      if es[0].key == key { KeptAll(es[1..], {key}); } else { WithoutKeyIsKept(es[1..], key); }
    }
  }

  lemma {:induction false} KeptTwice(es: seq<Entry>, a: set<string>, b: set<string>)
    ensures Kept(Kept(es, a), b) == Kept(es, a + b)
    decreases |es|
  {
    if es != [] {
      KeptTwice(es[1..], a, b);
      var rest := Kept(es[1..], a);
      if es[0].key !in a { assert ([es[0]] + rest)[1..] == rest; }
    }
  }

  // ---------- every command keeps the map ----------

  lemma {:induction false} OthersAre(ss: seq<Section>, name: string)
    ensures forall s :: s in Others(ss, name) <==> s in ss && s.name != name
  {
    if ss != [] { OthersAre(ss[1..], name); }
  }

  lemma CutAt<T>(s: seq<T>, i: nat)
    requires i < |s|
    ensures var r := s[..i] + s[i + 1..];
            |r| == |s| - 1 && forall j :: 0 <= j < |r| ==> r[j] == s[if j < i then j else j + 1]
  {
  }

  lemma {:induction false} FindIsFirst(ss: seq<Section>, name: string)
    ensures forall j :: 0 <= j < Find(ss, name) ==> ss[j].name != name
    decreases |ss|
  {
    if ss != [] && ss[0].name != name {
      FindIsFirst(ss[1..], name);
      assert forall j :: 0 < j < |ss| ==> ss[j] == ss[1..][j - 1];
    }
  }

  lemma WithoutKeepsMap(ss: seq<Section>, name: string)
    requires IsMap(ss)
    ensures IsMap(Without(ss, name)) && forall i :: 0 <= i < |Without(ss, name)| ==> Without(ss, name)[i].name != name
  {
    hide DistinctKeys, Find;
    var i := Find(ss, name);
    FindIsFirst(ss, name);
    if i < |ss| { CutAt(ss, i); }
  }

  lemma AppendKeepsMap(ss: seq<Section>, s: Section)
    requires IsMap(ss) && DistinctKeys(s.entries) && forall i :: 0 <= i < |ss| ==> ss[i].name != s.name
    ensures IsMap(ss + [s])
  {
    hide DistinctKeys;
  }

  lemma ChosenKeys(o: Options)
    ensures DistinctKeys(Chosen(o)) && InOrder(Chosen(o))
  {
    hide Maybe, Rank, DistinctKeys, InOrder;
    Ranks();
    Ranked([], "user", o.user, 0);
    var e1 := Maybe("user", o.user);
    Ranked(e1, "password", o.password, 1);
    var e2 := e1 + Maybe("password", o.password);
    Ranked(e2, "host", o.host, 2);
    var e3 := e2 + Maybe("host", o.host);
    Ranked(e3, "socket", o.socket, 3);
    var e4 := e3 + Maybe("socket", o.socket);
    Ranked(e4, "port", o.port, 4);
  }

  lemma Ranks()
    ensures Rank("user") == 0 && Rank("password") == 1 && Rank("host") == 2 && Rank("socket") == 3 && Rank("port") == 4
    ensures InOrder([])
  {
    ManyKeys();
  }

  ghost function Rank(key: string): nat {
    if key == "user" then 0 else if key == "password" then 1 else if key == "host" then 2 else if key == "socket" then 3 else 4
  }

  ghost predicate InOrder(es: seq<Entry>) { forall i, j :: 0 <= i < j < |es| ==> Rank(es[i].key) < Rank(es[j].key) }

  lemma Ranked(es: seq<Entry>, key: string, value: Option<string>, n: nat)
    requires InOrder(es) && Rank(key) == n && forall i :: 0 <= i < |es| ==> Rank(es[i].key) < n
    ensures InOrder(es + Maybe(key, value)) && DistinctKeys(es + Maybe(key, value)) && [] + Maybe(key, value) == Maybe(key, value)
    ensures forall i :: 0 <= i < |es + Maybe(key, value)| ==> Rank((es + Maybe(key, value))[i].key) < n + 1
  {
    hide Rank;
  }

  lemma {:induction false} KeptIsDistinct(es: seq<Entry>, keys: set<string>)
    requires DistinctKeys(es)
    ensures DistinctKeys(Kept(es, keys)) && forall e :: e in Kept(es, keys) ==> e in es
    decreases |es|
  {
    if es != [] {
      var rest := es[1..];
      assert forall i :: 0 <= i < |rest| ==> rest[i] == es[i + 1];
      KeptIsDistinct(rest, keys);
      var kept := Kept(rest, keys);
      assert forall i :: 0 <= i < |kept| ==> kept[i] in rest && kept[i].key != es[0].key;
    }
  }

  lemma WithoutOptionIsTrimmed(ss: seq<Section>, name: string, key: string)
    requires IsMap(ss)
    ensures WithoutOption(ss, name, key) == TrimmedAll(ss, name, {key})
  {
    var i := Find(ss, name);
    FindIsFirst(ss, name);
    if i < |ss| { WithoutKeyIsKept(ss[i].entries, key); }
  }

  lemma TrimmedKeepsMap(ss: seq<Section>, name: string, keys: set<string>)
    requires IsMap(ss)
    ensures IsMap(TrimmedAll(ss, name, keys))
  {
    hide DistinctKeys;
    forall i | 0 <= i < |ss| ensures DistinctKeys(TrimmedAll(ss, name, keys)[i].entries) {
      KeptIsDistinct(ss[i].entries, keys);
    }
  }

  lemma TrimmedTwice(ss: seq<Section>, name: string, a: set<string>, b: set<string>)
    ensures TrimmedAll(TrimmedAll(ss, name, a), name, b) == TrimmedAll(ss, name, a + b)
  {
    forall i | 0 <= i < |ss| ensures Trimmed(Trimmed(ss[i], name, a), name, b) == Trimmed(ss[i], name, a + b) {
      KeptTwice(ss[i].entries, a, b);
    }
  }

  lemma TrimmedNothing(ss: seq<Section>, name: string)
    ensures TrimmedAll(ss, name, {}) == ss
  {
    forall i | 0 <= i < |ss| ensures Trimmed(ss[i], name, {}) == ss[i] { KeptAll(ss[i].entries, {}); }
  }

  /** One more of the options to remove. */
  lemma DroppedIsTrimmed(ss: seq<Section>, name: string, done: set<string>, keys: set<string>, key: string)
    requires IsMap(ss)
    ensures Dropped(TrimmedAll(ss, name, done * keys), name, keys, key) == TrimmedAll(ss, name, (done + {key}) * keys)
  {
    hide IsMap, TrimmedAll, WithoutOption;
    TrimmedKeepsMap(ss, name, done * keys);
    if key in keys {
      WithoutOptionIsTrimmed(TrimmedAll(ss, name, done * keys), name, key);
      TrimmedTwice(ss, name, done * keys, {key});
      assert done * keys + {key} == (done + {key}) * keys;
    } else {
      assert done * keys == (done + {key}) * keys;
    }
  }

  /** Removing options deletes just the lines of these keys, in just the section of the name. */
  lemma OptionsAreTrimmed(ss: seq<Section>, name: string, keys: set<string>)
    requires IsMap(ss) && keys <= KEYS
    ensures WithoutOptions(ss, name, keys) == TrimmedAll(ss, name, keys)
  {
    hide IsMap, TrimmedAll, Dropped;
    TrimmedNothing(ss, name);
    assert {} * keys == {};
    DroppedIsTrimmed(ss, name, {}, keys, "user");
    DroppedIsTrimmed(ss, name, {} + {"user"}, keys, "password");
    DroppedIsTrimmed(ss, name, {} + {"user"} + {"password"}, keys, "host");
    DroppedIsTrimmed(ss, name, {} + {"user"} + {"password"} + {"host"}, keys, "socket");
    DroppedIsTrimmed(ss, name, {} + {"user"} + {"password"} + {"host"} + {"socket"}, keys, "port");
    assert ({} + {"user"} + {"password"} + {"host"} + {"socket"} + {"port"}) * keys == keys;
  }

  lemma ApplyKeepsMap(ss: seq<Section>, cmd: Command)
    requires IsMap(ss) && GoodCommand(cmd)
    ensures IsMap(Apply(ss, cmd))
  {
    hide IsMap, Without, WithoutOptions, Chosen;
    WithoutKeepsMap(ss, cmd.name);
    match cmd {
      case Set(name, options, _) =>
        ChosenKeys(options);
        AppendKeepsMap(Without(ss, name), Section(name, Chosen(options)));
      case Remove(name, keys, _) =>
        OptionsAreTrimmed(ss, name, keys);
        TrimmedKeepsMap(ss, name, keys);
    }
  }

  /** After any sequence of commands there is at most one section of each name, and in it one line of each key. */
  lemma {:induction false} AfterIsMap(cmds: seq<Command>)
    requires forall i :: 0 <= i < |cmds| ==> GoodCommand(cmds[i])
    ensures IsMap(After(cmds))
    decreases |cmds|
  {
    hide Apply, GoodCommand;
    if cmds != [] {
      AfterIsMap(cmds[..|cmds| - 1]);
      ApplyKeepsMap(After(cmds[..|cmds| - 1]), cmds[|cmds| - 1]);
    }
  }

  // ---------- what each command does ----------

  lemma AfterSnoc(cmds: seq<Command>, cmd: Command)
    ensures After(cmds + [cmd]) == Apply(After(cmds), cmd)
  {
    assert (cmds + [cmd])[..|cmds|] == cmds;
  }

  /** Setting a path leaves one section of that name, the last; all others stay as they are, in order. */
  lemma SetMeans(cmds: seq<Command>, name: string, options: Options)
    requires (forall i :: 0 <= i < |cmds| ==> GoodCommand(cmds[i]))
    ensures After(cmds + [Set(name, options, false)]) == Others(After(cmds), name) + [Section(name, Chosen(options))]
    ensures forall s :: s in Others(After(cmds), name) <==> s in After(cmds) && s.name != name
  {
    hide GoodCommand, Without, Chosen;
    AfterSnoc(cmds, Set(name, options, false));
    AfterIsMap(cmds);
    WithoutIsOthers(After(cmds), name);
    OthersAre(After(cmds), name);
  }

  lemma ManyKeys()
    ensures "user" != "password" && "user" != "host" && "user" != "socket" && "user" != "port"
    ensures "password" != "host" && "password" != "socket" && "password" != "port"
    ensures "host" != "socket" && "host" != "port" && "socket" != "port"
  {
    assert "user"[0] == 'u' && "password"[0] == 'p' && "host"[0] == 'h' && "socket"[0] == 's' && "port"[0] == 'p';
  }

  lemma MaybeHolds(key: string, value: Option<string>, e: Entry)
    ensures e in Maybe(key, value) <==> e.key == key && value == Some(e.value)
  {
  }

  lemma InOne<T>(a: seq<T>, b: seq<T>, c: seq<T>, d: seq<T>, e: seq<T>, x: T)
    ensures x in a + b + c + d + e <==> x in a || x in b || x in c || x in d || x in e
  {
  }

  /** What the new section holds: each option that was given, under its own name, and nothing else. */
  lemma ChosenHolds(o: Options, e: Entry)
    ensures e in Chosen(o) <==>
            || (e.key == "user" && o.user == Some(e.value)) || (e.key == "password" && o.password == Some(e.value))
            || (e.key == "host" && o.host == Some(e.value)) || (e.key == "socket" && o.socket == Some(e.value))
            || (e.key == "port" && o.port == Some(e.value))
  {
    hide Maybe;
    MaybeHolds("user", o.user, e);
    MaybeHolds("password", o.password, e);
    MaybeHolds("host", o.host, e);
    MaybeHolds("socket", o.socket, e);
    MaybeHolds("port", o.port, e);
    InOne(Maybe("user", o.user), Maybe("password", o.password), Maybe("host", o.host), Maybe("socket", o.socket), Maybe("port", o.port), e);
  }

  /** After `set` the last section has the name, and a line for each option given, with its value. */
  lemma SetHolds(cmds: seq<Command>, name: string, o: Options)
    requires (forall i :: 0 <= i < |cmds| ==> GoodCommand(cmds[i]))
    ensures var ss := After(cmds + [Set(name, o, false)]);
            && ss != [] && ss[|ss| - 1].name == name
            && var es := ss[|ss| - 1].entries;
               && (forall v :: Entry("user", v) in es <==> o.user == Some(v))
               && (forall v :: Entry("password", v) in es <==> o.password == Some(v))
               && (forall v :: Entry("host", v) in es <==> o.host == Some(v))
               && (forall v :: Entry("socket", v) in es <==> o.socket == Some(v))
               && (forall v :: Entry("port", v) in es <==> o.port == Some(v))
               && (forall i, j :: 0 <= i < j < |es| ==> Rank(es[i].key) < Rank(es[j].key))
  {
    hide GoodCommand, Chosen, After;
    SetMeans(cmds, name, o);
    ManyKeys();
    ChosenKeys(o);
    forall e: Entry { ChosenHolds(o, e); }
  }

  /** A user who declines keeps the file as it is; where no section of the name is, no question is asked. */
  lemma DeclinedMeans(cmds: seq<Command>, cmd: Command)
    requires cmd.declined
    ensures (exists s :: s in After(cmds) && s.name == cmd.name) ==> After(cmds + [cmd]) == After(cmds)
    ensures !(exists s :: s in After(cmds) && s.name == cmd.name) ==> After(cmds + [cmd]) == After(cmds + [cmd.(declined := false)])
  {
    hide After;
    AfterSnoc(cmds, cmd);
    AfterSnoc(cmds, cmd.(declined := false));
    FindIsFirst(After(cmds), cmd.name);
  }

  /** Removing a path deletes that section only. */
  lemma RemoveMeans(cmds: seq<Command>, name: string)
    requires (forall i :: 0 <= i < |cmds| ==> GoodCommand(cmds[i]))
    ensures After(cmds + [Remove(name, {}, false)]) == Others(After(cmds), name)
  {
    hide GoodCommand, Without;
    AfterSnoc(cmds, Remove(name, {}, false));
    AfterIsMap(cmds);
    WithoutIsOthers(After(cmds), name);
  }

  /** Removing options deletes those lines only. */
  lemma RemoveOptionsMeans(cmds: seq<Command>, name: string, keys: set<string>)
    requires (forall i :: 0 <= i < |cmds| ==> GoodCommand(cmds[i])) && keys <= KEYS && keys != {}
    ensures After(cmds + [Remove(name, keys, false)]) == TrimmedAll(After(cmds), name, keys)
  {
    hide GoodCommand, WithoutOptions, TrimmedAll;
    AfterSnoc(cmds, Remove(name, keys, false));
    AfterIsMap(cmds);
    OptionsAreTrimmed(After(cmds), name, keys);
  }
}
