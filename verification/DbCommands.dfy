/**
  The command line of the database: q, a, d and f commands answered as a finite
  map would answer them, and what happens to keys and values too long to store.
 */
module DbCommands {
  import opened Options
  import opened DbTree
  import opened Db

  // ---------------------------------------------------------------- scanning

  predicate IsSpace(c: char) {
    c == ' ' || c == '\t' || c == '\n' || c == '\r' || c == '\U{0B}' || c == '\U{0C}'
  }

  function SkipSpace(s: string): (r: string)
    ensures r != [] ==> !IsSpace(r[0])
  {
    if s != [] && IsSpace(s[0]) then SkipSpace(s[1..]) else s
  }

  /** The length of the longest space-free prefix of at most `max` characters. */
  function WordLen(s: string, max: nat): (n: nat)
    ensures n <= max && n <= |s|
    ensures forall i :: 0 <= i < n ==> !IsSpace(s[i])
    ensures n < max && n < |s| ==> IsSpace(s[n])
    ensures max > 0 && s != [] && !IsSpace(s[0]) ==> n > 0
  {
    if max == 0 || s == [] || IsSpace(s[0]) then 0 else 1 + WordLen(s[1..], max - 1)
  }

  /** The word read by one %255s conversion, empty if there is none, and the input left. */
  function ScanWord(s: string): (r: (string, string))
    ensures |r.0| < MAXLEN
    ensures r.0 == [] ==> SkipSpace(s) == []
  {
    var t := SkipSpace(s);
    (t[..WordLen(t, MAXLEN - 1)], t[WordLen(t, MAXLEN - 1)..])
  }

  /** A key or value that survives scanning. */
  predicate IsWord(w: string) {
    0 < |w| < MAXLEN && forall i :: 0 <= i < |w| ==> !IsSpace(w[i])
  }

  /** A run of white space, possibly empty. */
  predicate Blanks(a: string) {
    forall i :: 0 <= i < |a| ==> IsSpace(a[i])
  }

  /** `w` is a word that ends where `rest` begins: at white space, at the end, or because no word is longer. */
  predicate WordEnds(w: string, rest: string) {
    IsWord(w) && (rest == [] || IsSpace(rest[0]) || |w| == MAXLEN - 1)
  }

  lemma {:induction false} WordLenExact(w: string, rest: string, max: nat)
    requires |w| <= max && (forall i :: 0 <= i < |w| ==> !IsSpace(w[i]))
    requires rest == [] || IsSpace(rest[0]) || |w| == max
    ensures WordLen(w + rest, max) == |w|
  {
    if w != [] {
      assert (w + rest)[1..] == w[1..] + rest;
      WordLenExact(w[1..], rest, max - 1);
    } else {
      assert w + rest == rest;
    }
  }

  lemma {:induction false} SkipBlanks(a: string, s: string)
    requires Blanks(a) && (s == [] || !IsSpace(s[0]))
    ensures SkipSpace(a + s) == s
  {
    if a == [] {
      assert a + s == s;
    } else {
      assert (a + s)[1..] == a[1..] + s;
      SkipBlanks(a[1..], s);
    }
  }

  lemma {:induction false} SkippedBlanks(s: string) returns (a: string)
    ensures Blanks(a) && s == a + SkipSpace(s)
  {
    if s != [] && IsSpace(s[0]) {
      a := SkippedBlanks(s[1..]);
      a := [s[0]] + a;
    } else {
      a := [];
    }
  }

  /** A word written after any white space is read back whole. */
  lemma ScanBack(a: string, w: string, rest: string)
    requires Blanks(a) && WordEnds(w, rest)
    ensures ScanWord(a + w + rest) == (w, rest)
  {
    assert a + w + rest == a + (w + rest);
    SkipBlanks(a, w + rest);
    WordLenExact(w, rest, MAXLEN - 1);
  }

  /** Whatever is read was written so. */
  lemma ScannedFrom(s: string) returns (a: string)
    requires ScanWord(s).0 != []
    ensures Blanks(a) && WordEnds(ScanWord(s).0, ScanWord(s).1) && s == a + ScanWord(s).0 + ScanWord(s).1
  {
    a := SkippedBlanks(s);
  }

  // ---------------------------------------------------------------- commands on the map

  datatype Command =
    | Query(key: string)
    | Add(key: string, value: string)
    | Delete(key: string)
    | File(name: string)
    | IllFormed

  /** The lines of each readable file, and whether malloc has memory for the n-th record that is asked for. */
  datatype World = World(files: map<string, seq<string>>, memory: nat -> bool)

  /** The database as a map, and how many records have been asked for. */
  datatype Store = Store(data: map<string, string>, asked: nat)

  function Parse(command: string): Command {
    if |command| <= 1 then IllFormed
    else
      var w := ScanWord(command[1..]);
      if w.0 == [] then IllFormed
      else match command[0]
        case 'q' => Query(w.0)
        case 'a' => if ScanWord(w.1).0 == [] then IllFormed else Add(w.0, ScanWord(w.1).0)
        case 'd' => Delete(w.0)
        case 'f' => File(w.0)
        case _ => IllFormed
  }

  // ---------------------------------------------------------------- what a command line looks like

  /** A letter and a word; whatever follows the word does not matter. */
  ghost predicate OneWord(command: string, c: char, k: string) {
    exists a, rest {:trigger [c] + a + k + rest} :: command == [c] + a + k + rest && Blanks(a) && WordEnds(k, rest)
  }

  /** A letter and two words. */
  ghost predicate TwoWords(command: string, c: char, k: string, v: string) {
    exists a, b, rest {:trigger [c] + a + k + (b + v + rest)} ::
      && command == [c] + a + k + (b + v + rest) && Blanks(a) && WordEnds(k, b + v + rest)
      && Blanks(b) && WordEnds(v, rest)
  }

  ghost predicate WellFormedLine(command: string) {
    || (exists k :: OneWord(command, 'q', k))
    || (exists k :: OneWord(command, 'd', k))
    || (exists k :: OneWord(command, 'f', k))
    || (exists k, v :: TwoWords(command, 'a', k, v))
  }

  lemma ParseOneWord(command: string, c: char, k: string)
    requires OneWord(command, c, k)
    ensures |command| > 1 && command[0] == c && ScanWord(command[1..]).0 == k
  {
    var a, rest :| command == [c] + a + k + rest && Blanks(a) && WordEnds(k, rest);
    assert command[1..] == a + k + rest;
    ScanBack(a, k, rest);
  }

  lemma ParseTwoWords(command: string, c: char, k: string, v: string)
    requires TwoWords(command, c, k, v)
    ensures |command| > 1 && command[0] == c
    ensures var w := ScanWord(command[1..]); w.0 == k && ScanWord(w.1).0 == v
  {
    var a, b, rest :| command == [c] + a + k + (b + v + rest) && Blanks(a) && WordEnds(k, b + v + rest)
                      && Blanks(b) && WordEnds(v, rest);
    assert command[1..] == a + k + (b + v + rest);
    ScanBack(a, k, b + v + rest);
    ScanBack(b, v, rest);
  }

  lemma ParsedOneWord(command: string)
    requires |command| > 1 && ScanWord(command[1..]).0 != []
    ensures OneWord(command, command[0], ScanWord(command[1..]).0)
  {
    var a := ScannedFrom(command[1..]);
    var w := ScanWord(command[1..]);
    assert command == [command[0]] + a + w.0 + w.1;
  }

  lemma ParsedTwoWords(command: string)
    requires |command| > 1
    requires var w := ScanWord(command[1..]); w.0 != [] && ScanWord(w.1).0 != []
    ensures var w := ScanWord(command[1..]); TwoWords(command, command[0], w.0, ScanWord(w.1).0)
  {
    var w := ScanWord(command[1..]);
    var a := ScannedFrom(command[1..]);
    var b := ScannedFrom(w.1);
    var v := ScanWord(w.1);
    assert command == [command[0]] + a + w.0 + (b + v.0 + v.1);
  }

  /** A line is a command exactly if it has the letter and the words of one, in whatever white space and line end. */
  lemma ParseExact(command: string, k: string, v: string)
    ensures Parse(command) == Query(k) <==> OneWord(command, 'q', k)
    ensures Parse(command) == Delete(k) <==> OneWord(command, 'd', k)
    ensures Parse(command) == File(k) <==> OneWord(command, 'f', k)
    ensures Parse(command) == Add(k, v) <==> TwoWords(command, 'a', k, v)
  {
    if OneWord(command, 'q', k) { ParseOneWord(command, 'q', k); }
    if OneWord(command, 'd', k) { ParseOneWord(command, 'd', k); }
    if OneWord(command, 'f', k) { ParseOneWord(command, 'f', k); }
    if TwoWords(command, 'a', k, v) { ParseTwoWords(command, 'a', k, v); }
    if |command| > 1 && ScanWord(command[1..]).0 != [] {
      ParsedOneWord(command);
      if ScanWord(ScanWord(command[1..]).1).0 != [] { ParsedTwoWords(command); }
    }
  }

  // ---------------------------------------------------------------- answers

  function OnQuery(s: Store, k: string): (Store, string) {
    (s, if k in s.data && s.data[k] != "" then s.data[k] else "not found")
  }

  /** Without memory nothing is added, and the reply is the same. */
  function OnAdd(s: Store, k: string, v: string, memory: nat -> bool): (Store, string) {
    if k in s.data then (s, "already in database")
    else (Store(if memory(s.asked) then s.data[k := v] else s.data, s.asked + 1), "added")
  }

  function OnDelete(s: Store, k: string): (Store, string) {
    (s.(data := s.data - {k}), if k in s.data then "removed" else "not in database")
  }

  /**
    What a map answers, and what is left; `openable` is the number of files that can still be opened, one inside
    another.
   */
  function Answer(s: Store, command: string, w: World, openable: nat): (Store, string)
    decreases openable, 0, 0
  {
    match Parse(command)
    case Query(k) => OnQuery(s, k)
    case Add(k, v) => OnAdd(s, k, v, w.memory)
    case Delete(k) => OnDelete(s, k)
    case File(n) =>
      if n !in w.files || openable == 0 then (s, "bad file name")
      else (AfterAll(s, w.files[n], w, openable - 1), "file processed")
    case IllFormed => (s, "ill-formed command")
  }

  function AfterAll(s: Store, commands: seq<string>, w: World, openable: nat): Store
    decreases openable, 1, |commands|
  {
    if commands == [] then s else AfterAll(Answer(s, commands[0], w, openable).0, commands[1..], w, openable)
  }

  function Answers(s: Store, commands: seq<string>, w: World, openable: nat): (r: seq<string>)
    ensures |r| == |commands|
    decreases |commands|
  {
    if commands == [] then []
    else
      var a := Answer(s, commands[0], w, openable);
      [a.1] + Answers(a.0, commands[1..], w, openable)
  }

  /** Every stored value can be told from a missing one. */
  ghost predicate NoBlank(m: map<string, string>) {
    forall k :: k in m ==> m[k] != ""
  }

  lemma {:induction false} AnswerNoBlank(s: Store, command: string, w: World, openable: nat)
    requires NoBlank(s.data)
    ensures NoBlank(Answer(s, command, w, openable).0.data)
    decreases openable, 0, 0
  {
    match Parse(command)
    case File(n) =>
      if n in w.files && openable != 0 {
        AfterAllNoBlank(s, w.files[n], w, openable - 1);
      }
    case Query(_) =>
    case Add(_, _) =>
    case Delete(_) =>
    case IllFormed =>
  }

  /** Commands never store an empty value, so after any run a query is answered "not found" only for a missing key. */
  lemma {:induction false} AfterAllNoBlank(s: Store, commands: seq<string>, w: World, openable: nat)
    requires NoBlank(s.data)
    ensures NoBlank(AfterAll(s, commands, w, openable).data)
    decreases openable, 1, |commands|
  {
    if commands != [] {
      AnswerNoBlank(s, commands[0], w, openable);
      AfterAllNoBlank(Answer(s, commands[0], w, openable).0, commands[1..], w, openable);
    }
  }

  lemma AfterAllOneMore(s: Store, commands: seq<string>, c: string, w: World, openable: nat)
    ensures AfterAll(s, commands + [c], w, openable) == Answer(AfterAll(s, commands, w, openable), c, w, openable).0
    ensures Answers(s, commands + [c], w, openable)
         == Answers(s, commands, w, openable) + [Answer(AfterAll(s, commands, w, openable), c, w, openable).1]
    decreases |commands|
  {
    if commands != [] {
      AfterAllOneMore(Answer(s, commands[0], w, openable).0, commands[1..], c, w, openable);
      assert (commands + [c])[1..] == commands[1..] + [c];
    }
  }

  /**
    Storing a pair by command after any run and asking for it gives the value back, unless there was no memory for it;
    after a delete it is gone.  The lines may have any white space in them and any line end.
   */
  lemma CommandsRoundTrip(before: seq<string>, k: string, v: string, add: string, query: string, delete: string,
                          w: World, openable: nat)
    requires TwoWords(add, 'a', k, v) && OneWord(query, 'q', k) && OneWord(delete, 'd', k)
    ensures var s := AfterAll(Store(map[], 0), before, w, openable);
      && Answers(s, [add, query, delete, query, delete], w, openable)
         == (if k in s.data then ["already in database", s.data[k], "removed", "not found", "not in database"]
             else if w.memory(s.asked) then ["added", v, "removed", "not found", "not in database"]
             else ["added", "not found", "not in database", "not found", "not in database"])
      && AfterAll(s, [add, delete], w, openable).data == s.data - {k}
  {
    var s := AfterAll(Store(map[], 0), before, w, openable);
    AfterAllNoBlank(Store(map[], 0), before, w, openable);
    ParseExact(add, k, v);
    ParseExact(query, k, v);
    ParseExact(delete, k, v);
    ParseTwoWords(add, 'a', k, v);
    ParsedTwoWords(add);
    var s1 := OnAdd(s, k, v, w.memory).0;
    assert s1.data - {k} == s.data - {k};
    AnswersOfFive(s, s1, k, add, query, delete, w, openable);
  }

  /** The lines as a client sends them, each with its newline. */
  lemma NewlineEnds(k: string, v: string)
    requires IsWord(k) && IsWord(v)
    ensures OneWord("q " + k + "\n", 'q', k) && OneWord("d " + k + "\n", 'd', k) && OneWord("f " + k + "\n", 'f', k)
    ensures TwoWords("a " + k + " " + v + "\n", 'a', k, v)
  {
    assert "q " + k + "\n" == ['q'] + " " + k + "\n";
    assert "d " + k + "\n" == ['d'] + " " + k + "\n";
    assert "f " + k + "\n" == ['f'] + " " + k + "\n";
    assert "a " + k + " " + v + "\n" == ['a'] + " " + k + (" " + v + "\n");
  }

  lemma AnswersCons(s: Store, c: string, rest: seq<string>, w: World, openable: nat)
    ensures Answers(s, [c] + rest, w, openable)
         == [Answer(s, c, w, openable).1] + Answers(Answer(s, c, w, openable).0, rest, w, openable)
    ensures AfterAll(s, [c] + rest, w, openable) == AfterAll(Answer(s, c, w, openable).0, rest, w, openable)
  {
    assert ([c] + rest)[1..] == rest;
  }

  lemma AnswersOfFive(s: Store, s1: Store, k: string, add: string, query: string, delete: string, w: World,
                      openable: nat)
    requires Parse(add).Add? && Parse(add).key == k && Parse(query) == Query(k) && Parse(delete) == Delete(k)
    requires s1 == OnAdd(s, k, Parse(add).value, w.memory).0 && (k in s1.data ==> s1.data[k] != "")
    ensures Answers(s, [add, query, delete, query, delete], w, openable)
      == [if k in s.data then "already in database" else "added", if k in s1.data then s1.data[k] else "not found",
          if k in s1.data then "removed" else "not in database", "not found", "not in database"]
    ensures AfterAll(s, [add, delete], w, openable).data == s1.data - {k}
  {
    var tail := [delete, query, delete];
    assert Answer(s, add, w, openable) == OnAdd(s, k, Parse(add).value, w.memory);
    assert Answer(s1, query, w, openable) == OnQuery(s1, k);
    AnswersOfTail(s1, k, query, delete, w, openable);
    AnswersOfTwo(s, s1, s1, add, query, tail, w, openable);
    assert [add, query, delete, query, delete] == [add] + ([query] + tail);
    AfterBoth(s, s1, add, delete, w, openable);
  }

  lemma AfterBoth(s: Store, s1: Store, a: string, b: string, w: World, openable: nat)
    requires Answer(s, a, w, openable).0 == s1
    ensures AfterAll(s, [a, b], w, openable) == Answer(s1, b, w, openable).0
  {
    AnswersCons(s, a, [b], w, openable);
    AnswersCons(s1, b, [], w, openable);
    assert [a, b] == [a] + [b] && [b] == [b] + [];
  }

  lemma AnswersOfTwo(s: Store, s1: Store, s2: Store, a: string, b: string, tail: seq<string>, w: World, openable: nat)
    requires Answer(s, a, w, openable).0 == s1 && Answer(s1, b, w, openable).0 == s2
    ensures Answers(s, [a] + ([b] + tail), w, openable)
      == [Answer(s, a, w, openable).1, Answer(s1, b, w, openable).1] + Answers(s2, tail, w, openable)
  {
    AnswersCons(s, a, [b] + tail, w, openable);
    AnswersCons(s1, b, tail, w, openable);
  }

  lemma AnswersOfTail(s1: Store, k: string, query: string, delete: string, w: World, openable: nat)
    requires Parse(query) == Query(k) && Parse(delete) == Delete(k)
    ensures Answers(s1, [delete, query, delete], w, openable)
      == [if k in s1.data then "removed" else "not in database", "not found", "not in database"]
  {
    var s2 := OnDelete(s1, k).0;
    AnswersCons(s1, delete, [query, delete], w, openable);
    AnswersCons(s2, query, [delete], w, openable);
    AnswersCons(s2, delete, [], w, openable);
    assert s2.data - {k} == s2.data;
    assert [delete, query, delete] == [delete] + [query, delete];
    assert [query, delete] == [query] + [delete] && [delete] == [delete] + [];
  }

  /** What each line does and answers, by what it looks like; every other line is ill-formed and does nothing. */
  lemma AnswerExact(s: Store, command: string, k: string, v: string, w: World, openable: nat)
    ensures OneWord(command, 'q', k) ==>
      Answer(s, command, w, openable) == (s, if k in s.data && s.data[k] != "" then s.data[k] else "not found")
    ensures OneWord(command, 'd', k) ==>
      Answer(s, command, w, openable)
        == (Store(s.data - {k}, s.asked), if k in s.data then "removed" else "not in database")
    ensures TwoWords(command, 'a', k, v) ==>
      Answer(s, command, w, openable) ==
        if k in s.data then (s, "already in database")
        else (Store(if w.memory(s.asked) then s.data[k := v] else s.data, s.asked + 1), "added")
    ensures OneWord(command, 'f', k) ==>
      Answer(s, command, w, openable) ==
        if k in w.files && openable > 0 then (AfterAll(s, w.files[k], w, openable - 1), "file processed")
        else (s, "bad file name")
    ensures !WellFormedLine(command) ==> Answer(s, command, w, openable) == (s, "ill-formed command")
  {
    ParseExact(command, k, v);
    match Parse(command)
    case Query(n) => ParseExact(command, n, v);
    case Delete(n) => ParseExact(command, n, v);
    case File(n) => ParseExact(command, n, v);
    case Add(n, x) => ParseExact(command, n, x);
    case IllFormed =>
  }

  // ---------------------------------------------------------------- commands on the records

  method RunQuery(db: Database, name: string, len: int) returns (response: string)
    requires db.Valid() && 0 < len
    ensures forall asked :: response == Clip(OnQuery(Store(Contents(db.tree), asked), name).1, len)
  {
    response := db.DbQuery(name, len);
    if |response| == 0 {
      response := Clip("not found", len);
    }
  }

  method RunAdd(db: Database, name: string, value: string, len: int, memory: nat -> bool, asked: nat)
    returns (response: string, asked': nat)
    requires db.Valid() && 0 < len && |name| < MAXLEN && |value| < MAXLEN
    modifies db, db.cells.Keys
    ensures db.Valid() && fresh(db.cells.Keys - old(db.cells.Keys))
    ensures Store(Contents(db.tree), asked') == OnAdd(Store(old(Contents(db.tree)), asked), name, value, memory).0
    ensures response == Clip(OnAdd(Store(old(Contents(db.tree)), asked), name, value, memory).1, len)
  {
    LookupIsMapGet(db.tree, name);
    var added, _ := db.DbAdd(name, value, memory(asked));
    asked' := if added then asked + 1 else asked;
    response := Clip(if added then "added" else "already in database", len);
  }

  method RunDelete(db: Database, name: string, len: int) returns (response: string)
    requires db.Valid() && 0 < len
    modifies db, db.cells.Keys
    ensures db.Valid() && db.cells.Keys <= old(db.cells.Keys)
    ensures forall asked :: Store(Contents(db.tree), asked) == OnDelete(Store(old(Contents(db.tree)), asked), name).0
    ensures forall asked :: response == Clip(OnDelete(Store(old(Contents(db.tree)), asked), name).1, len)
  {
    var removed := db.DbRemove(name);
    response := Clip(if removed then "removed" else "not in database", len);
  }

  /** One command against the linked records gives the map's answer and leaves the map's next state. */
  method InterpretCommand(db: Database, command: string, len: int, w: World, openable: nat, asked: nat)
    returns (response: string, asked': nat)
    requires db.Valid() && 0 < len
    modifies db, db.cells.Keys
    ensures db.Valid() && fresh(db.cells.Keys - old(db.cells.Keys))
    ensures response == Clip(Answer(Store(old(Contents(db.tree)), asked), command, w, openable).1, len)
    ensures Store(Contents(db.tree), asked') == Answer(Store(old(Contents(db.tree)), asked), command, w, openable).0
    decreases openable, 0, 0
  {
    asked' := asked;
    if |command| <= 1 {
      return Clip("ill-formed command", len), asked;
    }
    var name := ScanWord(command[1..]);
    match command[0] {
      case 'q' =>
        if name.0 == [] {
          return Clip("ill-formed command", len), asked;
        }
        response := RunQuery(db, name.0, len);
      case 'a' =>
        var value := ScanWord(name.1);
        if name.0 == [] || value.0 == [] {
          return Clip("ill-formed command", len), asked;
        }
        response, asked' := RunAdd(db, name.0, value.0, len, w.memory, asked);
      case 'd' =>
        if name.0 == [] {
          return Clip("ill-formed command", len), asked;
        }
        response := RunDelete(db, name.0, len);
      case 'f' =>
        if name.0 == [] {
          return Clip("ill-formed command", len), asked;
        }
        assert Parse(command) == File(name.0);
        if name.0 !in w.files || openable == 0 {
          return Clip("bad file name", len), asked;
        }
        var responses;
        responses, asked' := InterpretLines(db, w.files[name.0], len, w, openable - 1, asked);
        response := Clip("file processed", len);
      case _ =>
        response := Clip("ill-formed command", len);
    }
  }

  /** A sequence of commands, from a file or from a client, gives the map's answers one by one. */
  method InterpretLines(db: Database, commands: seq<string>, len: int, w: World, openable: nat, asked: nat)
    returns (responses: seq<string>, asked': nat)
    requires db.Valid() && 0 < len
    modifies db, db.cells.Keys
    ensures db.Valid() && fresh(db.cells.Keys - old(db.cells.Keys))
    ensures Store(Contents(db.tree), asked') == AfterAll(Store(old(Contents(db.tree)), asked), commands, w, openable)
    ensures responses == ClipAll(Answers(Store(old(Contents(db.tree)), asked), commands, w, openable), len)
    decreases openable, 1, 0
  {
    ghost var s := Store(Contents(db.tree), asked);
    responses, asked' := [], asked;
    for i := 0 to |commands|
      invariant db.Valid() && fresh(db.cells.Keys - old(db.cells.Keys))
      invariant Served(s, commands[..i], len, w, openable, Store(Contents(db.tree), asked'), responses)
    {
      ghost var before := Store(Contents(db.tree), asked');
      var response;
      response, asked' := InterpretCommand(db, commands[i], len, w, openable, asked');
      OneMoreLine(s, commands, i, len, w, openable, before, responses);
      responses := responses + [response];
    }
    assert commands[..|commands|] == commands;
  }

  function ClipAll(s: seq<string>, len: int): seq<string>
    requires 0 < len
  {
    seq(|s|, i requires 0 <= i < |s| => Clip(s[i], len))
  }

  /** After these commands the store is `s'` and these were the responses. */
  ghost predicate Served(s: Store, commands: seq<string>, len: int, w: World, openable: nat, s': Store,
                         responses: seq<string>)
    requires 0 < len
  {
    s' == AfterAll(s, commands, w, openable) && responses == ClipAll(Answers(s, commands, w, openable), len)
  }

  lemma OneMoreLine(s: Store, commands: seq<string>, i: nat, len: int, w: World, openable: nat, s': Store,
                    responses: seq<string>)
    requires i < |commands| && 0 < len && Served(s, commands[..i], len, w, openable, s', responses)
    ensures var a := Answer(s', commands[i], w, openable);
      Served(s, commands[..i + 1], len, w, openable, a.0, responses + [Clip(a.1, len)])
  {
    assert commands[..i + 1] == commands[..i] + [commands[i]];
    AfterAllOneMore(s, commands[..i], commands[i], w, openable);
  }

  // ---------------------------------------------------------------- keys and values too long to store

  ghost predicate ShortKeys<I>(t: Tree<I>) {
    forall k :: k in Contents(t) ==> |k| < MAXLEN
  }

  lemma {:induction false} FitsKeys<I>(t: Tree<I>)
    requires DistinctIds(t) && Fits(Shape(t))
    ensures ShortKeys(t)
  {
    if t.Fork? {
      assert Fits(Shape(t.l)) by {
        forall n {:trigger Shape(t.l)[n]} | n in Shape(t.l)
          ensures |Shape(t.l)[n].key| < MAXLEN && |Shape(t.l)[n].value| < MAXLEN
        {
          assert Shape(t)[n] == Shape(t.l)[n];
        }
      }
      assert Fits(Shape(t.r)) by {
        forall n {:trigger Shape(t.r)[n]} | n in Shape(t.r)
          ensures |Shape(t.r)[n].key| < MAXLEN && |Shape(t.r)[n].value| < MAXLEN
        {
          assert Shape(t)[n] == Shape(t.r)[n];
        }
      }
      FitsKeys(t.l);
      FitsKeys(t.r);
      assert |Shape(t)[t.id].key| < MAXLEN;
    }
  }

  lemma RepresentedKeys<I>(head: I, t: Tree<I>)
    requires Represents(head, t, Cells(head, t))
    ensures ShortKeys(t)
  {
    forall n {:trigger Shape(t)[n]} | n in Shape(t)
      ensures |Shape(t)[n].key| < MAXLEN && |Shape(t)[n].value| < MAXLEN
    {
      assert Cells(head, t)[n] == Shape(t)[n];
    }
    FitsKeys(t);
  }

  /** A key and its clipped form compare alike with every other key that is not longer than the clipped form. */
  lemma {:induction false} ClippedLess(k: string, x: string)
    requires k != [] && |x| < |k| && x != k[..|k| - 1]
    ensures Less(k, x) <==> Less(k[..|k| - 1], x)
  {
    var c := k[..|k| - 1];
    if x != [] && |k| > 1 && k[0] == x[0] {
      assert x == [x[0]] + x[1..] && c == [k[0]] + c[1..];
      assert k[1..][..|k[1..]| - 1] == c[1..];
      ClippedLess(k[1..], x[1..]);
    }
  }

  lemma ClippedLessSame(k: string)
    requires |k| == MAXLEN
    ensures !Less(k, Clip(k, MAXLEN))
    decreases |k|
  {
    LessPrefix(Clip(k, MAXLEN), k);
    LessAsymmetric(Clip(k, MAXLEN), k);
  }

  lemma LessPrefix(c: string, k: string)
    requires c < k
    ensures Less(c, k)
  {
    if c != [] {
      LessPrefix(c[1..], k[1..]);
    }
  }

  lemma {:induction false} InsertClipped<I>(t: Tree<I>, k: string, node: Tree<I>)
    requires ShortKeys(t) && |k| == MAXLEN && Clip(k, MAXLEN) !in Contents(t)
    ensures Insert(t, k, node) == Insert(t, Clip(k, MAXLEN), node)
  {
    if t.Fork? {
      ClippedLess(k, t.key);
      InsertClipped(t.l, k, node);
      InsertClipped(t.r, k, node);
    }
  }

  lemma {:induction false} InsertHolds<I>(t: Tree<I>, k: string, id: I, k': string, v: string)
    ensures Contents(Insert(t, k, Record(id, k', v))).Keys == Contents(t).Keys + {k'}
  {
    if t.Fork? {
      InsertHolds(if Less(k, t.key) then t.l else t.r, k, id, k', v);
    }
  }

  lemma {:induction false} InsertTwin<I>(t: Tree<I>, k: string, id: I, v: string)
    requires Ordered(t) && ShortKeys(t) && |k| == MAXLEN && Clip(k, MAXLEN) in Contents(t)
    ensures !Ordered(Insert(t, k, Record(id, Clip(k, MAXLEN), v)))
  {
    var c := Clip(k, MAXLEN);
    if c == t.key {
      ClippedLessSame(k);
      InsertHolds(t.r, k, id, c, v);
      LessIrreflexive(c);
    } else {
      ClippedLess(k, t.key);
      SideHolds(t, c);
      InsertTwin(Side(t, c), k, id, v);
    }
  }

  /**
    A key of exactly MAXLEN characters is stored without its last one, at the place of the
    whole key: the tree stays ordered exactly if the clipped key was not there before.
   */
  lemma LongKeyOrder<I>(head: I, t: Tree<I>, k: string, id: I, v: string)
    requires Ordered(t) && Represents(head, t, Cells(head, t)) && |k| == MAXLEN
    ensures Ordered(Insert(t, k, Record(id, Clip(k, MAXLEN), v))) <==> Clip(k, MAXLEN) !in Contents(t)
  {
    RepresentedKeys(head, t);
    if Clip(k, MAXLEN) in Contents(t) {
      InsertTwin(t, k, id, v);
    } else {
      InsertClipped(t, k, Record(id, Clip(k, MAXLEN), v));
      InsertOrdered(t, Clip(k, MAXLEN), id, v);
    }
  }

  /** An accepted add is the map's insertion exactly if key and value are shorter than MAXLEN. */
  lemma AddExact<I>(head: I, t: Tree<I>, k: string, id: I, v: string)
    requires Ordered(t) && Represents(head, t, Cells(head, t)) && k !in Contents(t) && |k| <= MAXLEN && |v| <= MAXLEN
    ensures var t' := Insert(t, k, Record(id, Clip(k, MAXLEN), Clip(v, MAXLEN)));
      Ordered(t') && Contents(t') == Contents(t)[k := v] <==> |k| < MAXLEN && |v| < MAXLEN
  {
    RepresentedKeys(head, t);
    var c, w := Clip(k, MAXLEN), Clip(v, MAXLEN);
    InsertHolds(t, k, id, c, w);
    if |k| == MAXLEN {
      assert k !in Contents(Insert(t, k, Record(id, c, w)));
      assert k in Contents(t)[k := v];
    } else {
      InsertOrdered(t, k, id, w);
      InsertContents(t, k, id, k, w);
      assert Contents(t)[k := w][k] == w;
      assert Contents(t)[k := v][k] == v;
    }
  }

  function Repeat(c: char, n: nat): (s: string)
    ensures |s| == n
  {
    seq(n, i => c)
  }

  /**
    Such a key and such a tree exist: with the 255 first characters stored, adding all 256 leaves the tree unordered.
   */
  lemma LongKeyWitness() returns (t: Tree<nat>, k: string)
    ensures Ordered(t) && Represents(0, t, Cells(0, t)) && |k| == MAXLEN && k !in Contents(t)
    ensures !Ordered(Insert(t, k, Record(2, Clip(k, MAXLEN), "v")))
  {
    k := Repeat('x', MAXLEN);
    var c := Clip(k, MAXLEN);
    t := Record(1, c, "v");
    assert Shape(t) == map[1 := Cell(c, "v", None, None)];
    assert Contents(t) == map[c := "v"] && |c| == MAXLEN - 1;
    assert Ordered(t) by { assert Contents<nat>(Leaf) == map[]; }
    LongKeyOrder(0, t, k, 2, "v");
  }
}
