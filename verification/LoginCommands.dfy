/** The commands of the login-file editor (client/mysql_config_editor.cc) and their meaning: whatever the sequence
    of commands, the text is that of an ordered map from names to options. */
module LoginCommands {
  import opened Text
  import opened LoginText
  import opened LoginEdits
  import opened LoginFile

  datatype Options = Options(user: Option<string>, password: Option<string>, host: Option<string>,
                             socket: Option<string>, port: Option<string>)

  /** `declined`: the warning is on and the user does not confirm. `keys`: the options to remove; none of them
      removes the whole section. */
  datatype Command =
    | Set(name: string, options: Options, declined: bool)
    | Remove(name: string, keys: set<string>, declined: bool)

  function Maybe(key: string, value: Option<string>): seq<Entry> {
    if value.Some? then [Entry(key, value.value)] else []
  }

  function Chosen(o: Options): seq<Entry> {
    Maybe("user", o.user) + Maybe("password", o.password) + Maybe("host", o.host)
    + Maybe("socket", o.socket) + Maybe("port", o.port)
  }

  function Dropped(ss: seq<Section>, name: string, keys: set<string>, key: string): seq<Section> {
    if key in keys then WithoutOption(ss, name, key) else ss
  }

  function WithoutOptions(ss: seq<Section>, name: string, keys: set<string>): seq<Section> {
    var s1 := Dropped(ss, name, keys, "user");
    var s2 := Dropped(s1, name, keys, "password");
    var s3 := Dropped(s2, name, keys, "host");
    var s4 := Dropped(s3, name, keys, "socket");
    Dropped(s4, name, keys, "port")
  }

  function Apply(ss: seq<Section>, cmd: Command): seq<Section> {
    if cmd.declined && Find(ss, cmd.name) < |ss| then ss
    else
      match cmd
      case Set(name, options, _) => Without(ss, name) + [Section(name, Chosen(options))]
      case Remove(name, keys, _) => if keys == {} then Without(ss, name) else WithoutOptions(ss, name, keys)
  }

  /** The sections after a sequence of commands on an empty file. */
  function After(cmds: seq<Command>): seq<Section> {
    if cmds == [] then [] else Apply(After(cmds[..|cmds| - 1]), cmds[|cmds| - 1])
  }

  predicate GoodValue(v: Option<string>) { v.Some? ==> '\n' !in v.value && NUL !in v.value }

  predicate GoodCommand(cmd: Command) {
    && GoodName(cmd.name) && NUL !in cmd.name
    && match cmd
       case Set(_, o, _) => GoodValue(o.user) && GoodValue(o.password) && GoodValue(o.host) && GoodValue(o.socket) && GoodValue(o.port)
       case Remove(_, keys, _) => keys <= KEYS
  }

  // ---------- the commands on the buffer ----------

  /** The line of an option that is given. */
  function OptionLine(key: string, value: Option<string>): (r: string)
    ensures value.None? ==> r == ""
    ensures value.Some? ==> r == "\n" + key + " = " + value.value
  {
    if value.None? then "" else "\n" + key + " = " + value.value
  }

  /** One option line of the new section. */
  method AppendOption(path: string, key: string, value: Option<string>) returns (r: string)
    ensures r == path + OptionLine(key, value)
  {
    r := path;
    if value.Some? {
      r := r + "\n" + key + " = ";
      r := r + value.value;
    }
  }

  lemma LineOfOption(key: string, value: Option<string>)
    ensures EntriesText(Maybe(key, value)) == OptionLine(key, value)
  {
    if value.Some? {
      assert EntriesText([Entry(key, value.value)]) == EntryText(Entry(key, value.value)) + EntriesText([]);
    }
  }

  /** The text of the new section (`path_buf`). */
  method SectionOf(name: string, o: Options) returns (path: string)
    ensures path == "[" + name + "]" + OptionLine("user", o.user) + OptionLine("password", o.password)
              + OptionLine("host", o.host) + OptionLine("socket", o.socket) + OptionLine("port", o.port) + "\n"
    ensures path == SectionText(Section(name, Chosen(o)))
  {
    hide *;
    path := "[" + name + "]";
    path := AppendOption(path, "user", o.user);
    path := AppendOption(path, "password", o.password);
    path := AppendOption(path, "host", o.host);
    path := AppendOption(path, "socket", o.socket);
    path := AppendOption(path, "port", o.port);
    path := path + "\n";
    SectionSpelledOut(name, o);
  }

  lemma SectionSpelledOut(name: string, o: Options)
    ensures SectionText(Section(name, Chosen(o))) ==
            "[" + name + "]" + OptionLine("user", o.user) + OptionLine("password", o.password)
            + OptionLine("host", o.host) + OptionLine("socket", o.socket) + OptionLine("port", o.port) + "\n"
  {
    hide EntriesText, Maybe, OptionLine;
    FiveParts(Maybe("user", o.user), Maybe("password", o.password), Maybe("host", o.host), Maybe("socket", o.socket), Maybe("port", o.port));
    LineOfOption("user", o.user);
    LineOfOption("password", o.password);
    LineOfOption("host", o.host);
    LineOfOption("socket", o.socket);
    LineOfOption("port", o.port);
    Regrouped(Header(name), OptionLine("user", o.user), OptionLine("password", o.password), OptionLine("host", o.host),
              OptionLine("socket", o.socket), OptionLine("port", o.port));
  }

  lemma Regrouped(h: string, a: string, b: string, c: string, d: string, e: string)
    ensures h + (a + b + c + d + e) + "\n" == h + a + b + c + d + e + "\n"
  {
  }

  lemma FiveParts(a: seq<Entry>, b: seq<Entry>, c: seq<Entry>, d: seq<Entry>, e: seq<Entry>)
    ensures EntriesText(a + b + c + d + e) == EntriesText(a) + EntriesText(b) + EntriesText(c) + EntriesText(d) + EntriesText(e)
  {
    hide EntriesText;
    EntriesTextOf(a, b);
    EntriesTextOf(a + b, c);
    EntriesTextOf(a + b + c, d);
    EntriesTextOf(a + b + c + d, e);
  }

  /** One of the options of `remove_options`. */
  method DropOption(b: Buffer, name: string, keys: set<string>, key: string, ghost ss: seq<Section>)
    requires b.Valid() && Good(ss) && b.Contents() == FileText(ss) && GoodName(name) && NUL !in name && key in KEYS
    modifies b`length, b.str
    ensures b.Valid() && Good(Dropped(ss, name, keys, key)) && b.Contents() == FileText(Dropped(ss, name, keys, key))
  {
    if key in keys {
      hide FileText, RemoveOptionIn, KEYS;
      LoginEdits.RemoveOption(ss, name, key);
      FileEndsLine(ss);
      KeyHasNoNul(key);
      StaysGood(ss, name, key);
      b.RemoveOption(name, key);
    }
  }

  lemma StaysGood(ss: seq<Section>, name: string, key: string)
    requires Good(ss)
    ensures Good(WithoutOption(ss, name, key)) && Good(Without(ss, name))
  {
  }

  /** `remove_options`. */
  method RemoveOptions(b: Buffer, name: string, keys: set<string>, ghost ss: seq<Section>)
    requires b.Valid() && Good(ss) && b.Contents() == FileText(ss) && GoodName(name) && NUL !in name
    modifies b`length, b.str
    ensures b.Valid()
    ensures b.Contents() == FileText(if keys == {} then Without(ss, name) else WithoutOptions(ss, name, keys))
    ensures Good(if keys == {} then Without(ss, name) else WithoutOptions(ss, name, keys))
  {
    hide FileText, RemoveIn, Without, Dropped, Good;
    if keys == {} {
      RemoveSection(ss, name);
      StaysGood(ss, name, "");
      b.RemoveLoginPath(name);
      return;
    }
    ghost var s1 := Dropped(ss, name, keys, "user");
    ghost var s2 := Dropped(s1, name, keys, "password");
    ghost var s3 := Dropped(s2, name, keys, "host");
    ghost var s4 := Dropped(s3, name, keys, "socket");
    DropOption(b, name, keys, "user", ss);
    DropOption(b, name, keys, "password", s1);
    DropOption(b, name, keys, "host", s2);
    DropOption(b, name, keys, "socket", s3);
    DropOption(b, name, keys, "port", s4);
  }

  lemma KeyHasNoNul(key: string)
    requires key in KEYS
    ensures NUL !in key
  {
  }

  lemma {:induction false} FileEndsLine(ss: seq<Section>)
    ensures var t := FileText(ss); t != "" ==> t[|t| - 1] == '\n'
    decreases |ss|
  {
    if ss != [] { FileEndsLine(ss[1..]); }
  }

  lemma NamesHere(ss: seq<Section>, name: string)
    requires Good(ss) && GoodName(name)
    ensures LocateIn(FileText(ss), name) != NONE <==> Find(ss, name) < |ss|
  {
    LocateSection(ss, name);
  }

  /** `set_command` and `remove_command` between reading and writing the file. */
  method Execute(b: Buffer, cmd: Command, ghost ss: seq<Section>)
    requires b.Valid() && Good(ss) && b.Contents() == FileText(ss) && GoodCommand(cmd)
    modifies b, b.str
    ensures b.Valid() && b.Contents() == FileText(Apply(ss, cmd)) && Good(Apply(ss, cmd))
    ensures b.str == old(b.str) || fresh(b.str)
  {
    hide FileText, SectionText, WithoutOptions, LocateIn, RemoveIn, Chosen;
    NamesHere(ss, cmd.name);
    if cmd.declined {
      var at := b.LocateLoginPath(cmd.name);
      if at != NONE { return; }
    }
    match cmd {
      case Set(name, options, _) =>
        var path := SectionOf(name, options);
        RemoveSection(ss, name);
        b.RemoveLoginPath(name);
        SectionHasNoNul(name, options);
        b.Append(path);
        AppendSection(Without(ss, name), Section(name, Chosen(options)));
        ChosenIsGood(cmd);
      case Remove(name, keys, _) => RemoveOptions(b, name, keys, ss);
    }
  }

  lemma AppendSection(ss: seq<Section>, s: Section)
    ensures FileText(ss + [s]) == FileText(ss) + SectionText(s)
  {
    FileTextOf(ss, [s]);
    assert FileText([s]) == SectionText(s) + FileText([s][1..]);
  }

  lemma ChosenIsGood(cmd: Command)
    requires cmd.Set? && GoodCommand(cmd)
    ensures GoodSection(Section(cmd.name, Chosen(cmd.options)))
  {
  }

  lemma SectionHasNoNul(name: string, o: Options)
    requires GoodCommand(Set(name, o, false))
    ensures NUL !in SectionText(Section(name, Chosen(o)))
  {
    hide EntriesText;
    FiveParts(Maybe("user", o.user), Maybe("password", o.password), Maybe("host", o.host), Maybe("socket", o.socket), Maybe("port", o.port));
    LineHasNoNul("user", o.user);
    LineHasNoNul("password", o.password);
    LineHasNoNul("host", o.host);
    LineHasNoNul("socket", o.socket);
    LineHasNoNul("port", o.port);
  }

  lemma LineHasNoNul(key: string, value: Option<string>)
    requires NUL !in key && GoodValue(value)
    ensures NUL !in EntriesText(Maybe(key, value))
  {
    if value.Some? {
      var e := Entry(key, value.value);
      assert EntriesText([e]) == EntryText(e) + EntriesText([e][1..]);
    }
  }

  /** Any sequence of commands, starting from an empty file. */
  method ExecuteAll(cmds: seq<Command>) returns (b: Buffer)
    requires forall i :: 0 <= i < |cmds| ==> GoodCommand(cmds[i])
    ensures b.Valid() && b.Contents() == FileText(After(cmds))
  {
    hide FileText, GoodCommand, Apply;
    b := new Buffer();
    NothingYet(cmds);
    for i := 0 to |cmds|
      invariant b.Valid() && fresh(b) && fresh(b.str) && Good(After(cmds[..i])) && b.Contents() == FileText(After(cmds[..i]))
    {
      Execute(b, cmds[i], After(cmds[..i]));
      assert cmds[..i + 1][..i] == cmds[..i];
    }
    assert cmds[..|cmds|] == cmds;
  }

  lemma NothingYet(cmds: seq<Command>)
    ensures After(cmds[..0]) == [] && FileText([]) == ""
  {
  }
}
