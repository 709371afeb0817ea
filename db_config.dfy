/**
 * `get_db_config`: pick the five connection settings out of the PHP configuration file, whose
 * lines look like `define('DB_HOST', 'localhost');`. Each line arrives already split into
 * shell-style tokens (that line becomes `define(DB_HOST,` and `localhost);`).
 */
module DbConfig {

  import opened Wrappers
  import opened IntParse

  /** The five dictionary keys `host`, `port`, `user`, `passwd` and `db`, named after the connection
      arguments they are passed as. */
  datatype Key = Host | Port | User | Passwd | Db

  const AllKeys: set<Key> := {Host, Port, User, Passwd, Db}

  /** The substring of a line's first token that selects each key. */
  function Marker(k: Key): string {
    match k
    case Host => "DB_HOST"
    case Port => "DB_PORT"
    case User => "DB_USER"
    case Passwd => "DB_PASSWORD"
    case Db => "DB_NAME"
  }

  /** The position of each test in the `if`/`elif` chain. */
  function Rank(k: Key): nat {
    match k
    case Host => 0
    case Port => 1
    case User => 2
    case Passwd => 3
    case Db => 4
  }

  /** The port is stored as an integer, every other setting as a string. */
  datatype Value = Text(text: string) | Number(number: int)

  datatype ConfigError =
    | MissingValue   // a selecting line has no second token: `split[1]` raises IndexError
    | BadPort        // the port is not an integer: `int(...)` raises ValueError
    | InvalidConfig  // fewer than five settings after the last line: the assertion fails

  predicate StartsWith(s: string, prefix: string) {
    |prefix| <= |s| && s[..|prefix|] == prefix
  }

  /** Python's `pattern in s` on strings. */
  predicate Contains(s: string, pattern: string)
    decreases |s|
  {
    StartsWith(s, pattern) || (s != [] && Contains(s[1..], pattern))
  }

  /** The `if`/`elif` chain on a line's first token: the first marker it contains wins. */
  function Classify(token: string): (r: Option<Key>)
    ensures r.Some? ==> Contains(token, Marker(r.value))
  {
    if Contains(token, "DB_HOST") then Some(Host)
    else if Contains(token, "DB_PORT") then Some(Port)
    else if Contains(token, "DB_USER") then Some(User)
    else if Contains(token, "DB_PASSWORD") then Some(Passwd)
    else if Contains(token, "DB_NAME") then Some(Db)
    else None
  }

  /** Python's `s[:-2]`: everything but the last two characters, and "" for shorter strings. */
  function DropLastTwo(s: string): (r: string)
    ensures |r| == if |s| >= 2 then |s| - 2 else 0
    ensures r == s[..|r|]
  {
    if |s| >= 2 then s[..|s| - 2] else []
  }

  /** The value stored for `k` from the stripped second token: `int(...)` for the port. */
  function Convert(k: Key, raw: string): (r: Option<Value>)
    ensures r.Some? ==> (r.value.Number? <==> k == Port)
    ensures r.None? ==> k == Port
  {
    if k == Port then
      match ParseInt(raw)
      case None => None
      case Some(n) => Some(Number(n))
    else Some(Text(raw))
  }

  /** What processing one line does to the dictionary. */
  datatype Effect = Skip | Store(key: Key, value: Value) | Raise(error: ConfigError)

  function LineEffect(split: seq<string>): Effect {
    if split == [] then Skip
    else
      match Classify(split[0])
      case None => Skip
      case Some(k) =>
        if |split| < 2 then Raise(MissingValue)
        else
          match Convert(k, DropLastTwo(split[1]))
          case None => Raise(BadPort)
          case Some(v) => Store(k, v)
  }

  /** The loop of `get_db_config` from a given dictionary on: lines are processed in order, empty
      ones skipped, and the scan stops as soon as the dictionary holds five entries. */
  function Scan(lines: seq<seq<string>>, config: map<Key, Value>): Result<map<Key, Value>, ConfigError>
    decreases |lines|
  {
    if lines == [] then
      if |config| == 5 then Success(config) else Failure(InvalidConfig)
    else if lines[0] == [] then Scan(lines[1..], config)
    else
      match LineEffect(lines[0])
      case Raise(e) => Failure(e)
      case Skip => if |config| == 5 then Success(config) else Scan(lines[1..], config)
      case Store(k, v) =>
        var next := config[k := v];
        if |next| == 5 then Success(next) else Scan(lines[1..], next)
  }

  /** What `get_db_config` returns for the tokenised lines of a file. */
  function ConfigOf(lines: seq<seq<string>>): Result<map<Key, Value>, ConfigError> {
    Scan(lines, map[])
  }

  /** `get_db_config` over the file's tokenised lines. */
  method GetDbConfig(lines: seq<seq<string>>) returns (r: Result<map<Key, Value>, ConfigError>)
    ensures r == ConfigOf(lines)
    ensures r.Success? ==> r.value.Keys == AllKeys
  {
    var config: map<Key, Value> := map[];
    for i := 0 to |lines|
      invariant |config| < 5
      invariant Scan(lines[i..], config) == ConfigOf(lines)
    {
      assert lines[i..][1..] == lines[i + 1..];
      var split := lines[i];
      if split == [] {
        continue;
      }
      var key := Classify(split[0]);
      if key.Some? {
        if |split| < 2 {
          return Failure(MissingValue);
        }
        var value := Convert(key.value, DropLastTwo(split[1]));
        if value.None? {
          return Failure(BadPort);
        }
        config := config[key.value := value.value];
      }
      if |config| == 5 {
        FiveKeysAreAll(config);
        return Success(config);
      }
    }
    return Failure(InvalidConfig);
  }

  /** A dictionary holds five entries exactly when it has every key. */
  lemma FiveKeysAreAll<V>(m: map<Key, V>)
    ensures |m| == 5 <==> m.Keys == AllKeys
  {
    assert m.Keys <= AllKeys by {
      forall k | k in m.Keys ensures k in AllKeys {
        match k
        case Host =>
        case Port =>
        case User =>
        case Passwd =>
        case Db =>
      }
    }
    assert |AllKeys| == 5;
    assert |m| == |m.Keys|;
    if m.Keys != AllKeys {
      var missing :| missing in AllKeys && missing !in m.Keys;
      SubsetSize(m.Keys, AllKeys - {missing});
    }
  }

  lemma {:induction false} SubsetSize<T>(a: set<T>, b: set<T>)
    requires a <= b
    ensures |a| <= |b|
    decreases |b|
  {
    if a != {} {
      var x :| x in a;
      SubsetSize(a - {x}, b - {x});
    }
  }

  // ---------------------------------------------------------------------------------------------
  // The line classifier

  /** A token selects a key exactly when it contains that key's marker and none of the markers
      tested before it. */
  lemma ClassifyIsFirstMatch(token: string, k: Key)
    ensures Classify(token) == Some(k)
            <==> Contains(token, Marker(k))
                 && forall j :: Rank(j) < Rank(k) ==> !Contains(token, Marker(j))
  {
    if Classify(token) == Some(k) {
      forall j | Rank(j) < Rank(k) ensures !Contains(token, Marker(j)) {
        match j
        case Host =>
        case Port =>
        case User =>
        case Passwd =>
        case Db =>
      }
    }
    if Contains(token, Marker(k)) && forall j :: Rank(j) < Rank(k) ==> !Contains(token, Marker(j)) {
      match k
      case Host =>
      case Port =>
        assert !Contains(token, Marker(Host));
      case User =>
        assert !Contains(token, Marker(Host)) && !Contains(token, Marker(Port));
      case Passwd =>
        assert !Contains(token, Marker(Host)) && !Contains(token, Marker(Port));
        assert !Contains(token, Marker(User));
      case Db =>
        assert !Contains(token, Marker(Host)) && !Contains(token, Marker(Port));
        assert !Contains(token, Marker(User)) && !Contains(token, Marker(Passwd));
    }
  }

  /** A token that contains none of the five markers selects nothing, and the line is skipped. */
  lemma ClassifyNone(token: string)
    ensures Classify(token) == None <==> forall k :: !Contains(token, Marker(k))
  {
    if Classify(token) == None {
      forall k ensures !Contains(token, Marker(k)) {
        match k
        case Host =>
        case Port =>
        case User =>
        case Passwd =>
        case Db =>
      }
    } else {
      assert Contains(token, Marker(Classify(token).value));
    }
  }

  /** A value token written as the setting followed by two closing characters, as in
      `localhost);`, yields the setting itself. */
  lemma DropLastTwoRestores(value: string, closing: string)
    requires |closing| == 2
    ensures DropLastTwo(value + closing) == value
  {
    assert (value + closing)[..|value|] == value;
  }

  // ---------------------------------------------------------------------------------------------
  // The dictionary after a run of lines

  /** No line of `lines` raises an error. */
  predicate LinesOk(lines: seq<seq<string>>) {
    forall i :: 0 <= i < |lines| ==> !LineEffect(lines[i]).Raise?
  }

  /** The value that the last line of `lines` storing `k` stores, if any line does. */
  function LastWrite(lines: seq<seq<string>>, k: Key): Option<Value>
    decreases |lines|
  {
    if lines == [] then None
    else
      var last := lines[|lines| - 1];
      if Stores(last, k) then Some(LineEffect(last).value)
      else LastWrite(lines[..|lines| - 1], k)
  }

  /** Every key has been stored by some line of `lines`. */
  predicate AllWritten(lines: seq<seq<string>>) {
    forall k :: LastWrite(lines, k).Some?
  }

  /** The dictionary that processing every line of `lines` in order leaves, errors aside. */
  function Written(lines: seq<seq<string>>): map<Key, Value> {
    map k | k in AllKeys && LastWrite(lines, k).Some? :: LastWrite(lines, k).value
  }

  /** Whether line `split` stores a value for `k`. */
  predicate Stores(split: seq<string>, k: Key) {
    LineEffect(split).Store? && LineEffect(split).key == k
  }

  /** A line stores a value exactly when its first token selects a key and it has a second token
      that converts: that token without its last two characters, as an integer for the port. */
  lemma StoreIsSecondTokenStripped(split: seq<string>, k: Key, v: Value)
    ensures LineEffect(split) == Store(k, v)
            <==> |split| >= 2 && Classify(split[0]) == Some(k)
                 && Convert(k, DropLastTwo(split[1])) == Some(v)
  {
  }

  /** `LastWrite` finds the last storing line: a line that stores `v` for `k`, with no later line
      storing anything for `k`. */
  lemma {:induction false} LastWriteIsLastStore(lines: seq<seq<string>>, k: Key, v: Value)
    returns (i: nat)
    requires LastWrite(lines, k) == Some(v)
    ensures i < |lines| && LineEffect(lines[i]) == Store(k, v)
    ensures forall j :: i < j < |lines| ==> !Stores(lines[j], k)
    decreases |lines|
  {
    var n := |lines| - 1;
    if Stores(lines[n], k) {
      i := n;
    } else {
      var prefix := lines[..n];
      i := LastWriteIsLastStore(prefix, k, v);
      assert lines[i] == prefix[i];
      forall j | i < j < |lines| ensures !Stores(lines[j], k) {
        if j < n {
          assert lines[j] == prefix[j] && !Stores(prefix[j], k);
        } else {
          assert j == n;
        }
      }
    }
  }

  /** Appending a line changes only the key it stores. */
  lemma LastWriteAppend(h: seq<seq<string>>, line: seq<string>, k: Key)
    ensures LastWrite(h + [line], k)
            == if Stores(line, k) then Some(LineEffect(line).value) else LastWrite(h, k)
  {
    assert (h + [line])[..|h|] == h;
  }

  /** The dictionary after one more line: the line's key set to its value, or unchanged. */
  lemma WrittenAppend(h: seq<seq<string>>, line: seq<string>)
    ensures LineEffect(line).Store? ==>
              Written(h + [line]) == Written(h)[LineEffect(line).key := LineEffect(line).value]
    ensures !LineEffect(line).Store? ==> Written(h + [line]) == Written(h)
    ensures AllWritten(h) ==> AllWritten(h + [line])
  {
    forall k ensures LastWrite(h + [line], k)
                     == if Stores(line, k) then Some(LineEffect(line).value) else LastWrite(h, k) {
      LastWriteAppend(h, line, k);
    }
  }

  /** The dictionary holds five entries exactly when every key has been written. */
  lemma WrittenSize(h: seq<seq<string>>)
    ensures |Written(h)| == 5 <==> AllWritten(h)
  {
    FiveKeysAreAll(Written(h));
    if Written(h).Keys == AllKeys {
      forall k ensures LastWrite(h, k).Some? {
        assert k in Written(h).Keys by {
          match k
          case Host =>
          case Port =>
          case User =>
          case Passwd =>
          case Db =>
        }
      }
    }
  }

  /** Once every key has been written, later lines cannot unwrite one. */
  lemma {:induction false} AllWrittenStays(h: seq<seq<string>>, more: seq<seq<string>>)
    requires AllWritten(h)
    ensures AllWritten(h + more)
    decreases |more|
  {
    if more != [] {
      var init := more[..|more| - 1];
      AllWrittenStays(h, init);
      WrittenAppend(h + init, more[|more| - 1]);
      assert h + more == (h + init) + [more[|more| - 1]];
    } else {
      assert h + more == h;
    }
  }

  // ---------------------------------------------------------------------------------------------
  // The scan

  /** One step of the scan from the dictionary of the lines already read: an error stops it, a
      dictionary that becomes complete is returned, and otherwise the scan goes on. */
  lemma ScanStep(h: seq<seq<string>>, lines: seq<seq<string>>)
    requires !AllWritten(h) && lines != []
    ensures Scan(lines, Written(h))
            == match LineEffect(lines[0])
               case Raise(e) => Failure(e)
               case _ =>
                 if AllWritten(h + [lines[0]]) then Success(Written(h + [lines[0]]))
                 else Scan(lines[1..], Written(h + [lines[0]]))
  {
    WrittenAppend(h, lines[0]);
    WrittenSize(h);
    WrittenSize(h + [lines[0]]);
  }

  /** The lines up to the `n`-th are read without error, and the `n`-th is the first after which
      every key has been written. */
  predicate FirstComplete(lines: seq<seq<string>>, n: nat)
    requires n <= |lines|
  {
    LinesOk(lines[..n]) && AllWritten(lines[..n])
    && forall j :: 0 <= j < n ==> !AllWritten(lines[..j])
  }

  /** Reading the first of the lines moves it onto the end of the lines already read. */
  lemma ConsSplit(h: seq<seq<string>>, lines: seq<seq<string>>, j: nat)
    requires 0 < j <= |lines|
    ensures h + lines[..j] == (h + [lines[0]]) + lines[1..][..j - 1]
  {
    assert lines[..j] == [lines[0]] + lines[1..][..j - 1];
  }

  lemma LinesOkCons(lines: seq<seq<string>>, n: nat)
    requires 0 < n <= |lines|
    ensures LinesOk(lines[..n]) <==> !LineEffect(lines[0]).Raise? && LinesOk(lines[1..][..n - 1])
  {
    var rest := lines[1..][..n - 1];
    if LinesOk(lines[..n]) {
      forall i | 0 <= i < n - 1 ensures !LineEffect(rest[i]).Raise? {
        assert rest[i] == lines[..n][i + 1];
      }
    }
    if !LineEffect(lines[0]).Raise? && LinesOk(rest) {
      forall i | 0 <= i < n ensures !LineEffect(lines[..n][i]).Raise? {
        if i > 0 {
          assert lines[..n][i] == rest[i - 1];
        }
      }
    }
  }

  /** No prefix of `lines` shorter than `n` completes the dictionary started from `h` exactly when
      `h` is incomplete and no prefix shorter than `n - 1` of the remaining lines completes it once
      the first line is read. */
  lemma NotYetCons(h: seq<seq<string>>, lines: seq<seq<string>>, n: nat)
    requires 0 < n <= |lines|
    ensures (forall j :: 0 <= j < n ==> !AllWritten(h + lines[..j]))
            <==> !AllWritten(h + lines[..0])
                 && forall j :: 0 <= j < n - 1 ==> !AllWritten((h + [lines[0]]) + lines[1..][..j])
  {
    var h' := h + [lines[0]];
    if forall j :: 0 <= j < n ==> !AllWritten(h + lines[..j]) {
      forall j | 0 <= j < n - 1 ensures !AllWritten(h' + lines[1..][..j]) {
        ConsSplit(h, lines, j + 1);
        assert !AllWritten(h + lines[..j + 1]);
      }
    }
    if !AllWritten(h + lines[..0]) && forall j :: 0 <= j < n - 1 ==> !AllWritten(h' + lines[1..][..j]) {
      forall j | 0 < j < n ensures !AllWritten(h + lines[..j]) {
        ConsSplit(h, lines, j);
        assert !AllWritten(h' + lines[1..][..j - 1]);
      }
    }
  }

  /** A successful scan reads its first line without error, and either stops there or succeeds
      on the remaining lines. */
  lemma SucceedsStep(h: seq<seq<string>>, lines: seq<seq<string>>, m: map<Key, Value>)
    requires !AllWritten(h)
    requires Scan(lines, Written(h)) == Success(m)
    ensures lines != [] && !LineEffect(lines[0]).Raise?
    ensures AllWritten(h + [lines[0]]) ==> m == Written(h + [lines[0]])
    ensures !AllWritten(h + [lines[0]]) ==> Scan(lines[1..], Written(h + [lines[0]])) == Success(m)
  {
    WrittenSize(h);
    assert lines != [];
    ScanStep(h, lines);
  }

  lemma {:induction false} ScanSucceeds(h: seq<seq<string>>, lines: seq<seq<string>>,
                                        m: map<Key, Value>) returns (n: nat)
    requires !AllWritten(h)
    requires Scan(lines, Written(h)) == Success(m)
    ensures 0 < n <= |lines| && LinesOk(lines[..n]) && AllWritten(h + lines[..n])
    ensures m == Written(h + lines[..n])
    ensures forall j :: 0 <= j < n ==> !AllWritten(h + lines[..j])
    decreases |lines|
  {
    SucceedsStep(h, lines, m);
    var h' := h + [lines[0]];
    ConsSplit(h, lines, 1);
    assert h' + lines[1..][..0] == h';
    assert h + lines[..0] == h;
    if AllWritten(h') {
      n := 1;
      LinesOkCons(lines, 1);
    } else {
      var n' := ScanSucceeds(h', lines[1..], m);
      n := n' + 1;
      ConsSplit(h, lines, n);
      LinesOkCons(lines, n);
      NotYetCons(h, lines, n);
    }
  }

  lemma {:induction false} ScanReachesPrefix(h: seq<seq<string>>, lines: seq<seq<string>>, n: nat)
    requires !AllWritten(h)
    requires 0 < n <= |lines| && LinesOk(lines[..n]) && AllWritten(h + lines[..n])
    requires forall j :: 0 <= j < n ==> !AllWritten(h + lines[..j])
    ensures Scan(lines, Written(h)) == Success(Written(h + lines[..n]))
    decreases n
  {
    ScanStep(h, lines);
    var h' := h + [lines[0]];
    LinesOkCons(lines, n);
    ConsSplit(h, lines, n);
    ConsSplit(h, lines, 1);
    assert h' + lines[1..][..0] == h';
    if n > 1 {
      NotYetCons(h, lines, n);
      ScanReachesPrefix(h', lines[1..], n - 1);
    }
  }

  lemma {:induction false} ScanInvalid(h: seq<seq<string>>, lines: seq<seq<string>>)
    requires !AllWritten(h)
    ensures Scan(lines, Written(h)) == Failure(InvalidConfig)
            <==> LinesOk(lines) && !AllWritten(h + lines)
    decreases |lines|
  {
    if lines == [] {
      WrittenSize(h);
      assert h + lines == h;
    } else {
      ScanStep(h, lines);
      var h' := h + [lines[0]];
      assert h + lines == h' + lines[1..];
      assert LinesOk(lines) <==> !LineEffect(lines[0]).Raise? && LinesOk(lines[1..]) by {
        if !LineEffect(lines[0]).Raise? && LinesOk(lines[1..]) {
          forall i | 0 <= i < |lines| ensures !LineEffect(lines[i]).Raise? {
            if i > 0 {
              assert lines[i] == lines[1..][i - 1];
            }
          }
        }
      }
      if !LineEffect(lines[0]).Raise? {
        if AllWritten(h') {
          AllWrittenStays(h', lines[1..]);
        } else {
          ScanInvalid(h', lines[1..]);
        }
      }
    }
  }

  /** A scan that fails on a line's error either fails on its first line or reads that line
      without completing the dictionary and fails on the remaining lines. */
  lemma FailsStep(h: seq<seq<string>>, lines: seq<seq<string>>, e: ConfigError)
    requires !AllWritten(h)
    requires Scan(lines, Written(h)) == Failure(e) && e != InvalidConfig
    ensures lines != []
    ensures LineEffect(lines[0]).Raise? ==> LineEffect(lines[0]) == Raise(e)
    ensures !LineEffect(lines[0]).Raise? ==>
              !AllWritten(h + [lines[0]]) && Scan(lines[1..], Written(h + [lines[0]])) == Failure(e)
  {
    WrittenSize(h);
    assert lines != [];
    ScanStep(h, lines);
  }

  lemma {:induction false} ScanFails(h: seq<seq<string>>, lines: seq<seq<string>>, e: ConfigError)
    returns (i: nat)
    requires !AllWritten(h)
    requires Scan(lines, Written(h)) == Failure(e) && e != InvalidConfig
    ensures i < |lines| && LinesOk(lines[..i]) && !AllWritten(h + lines[..i])
    ensures LineEffect(lines[i]) == Raise(e)
    decreases |lines|
  {
    FailsStep(h, lines, e);
    var h' := h + [lines[0]];
    assert h + lines[..0] == h;
    if LineEffect(lines[0]).Raise? {
      i := 0;
    } else {
      ConsSplit(h, lines, 1);
      assert h' + lines[1..][..0] == h';
      var i' := ScanFails(h', lines[1..], e);
      i := i' + 1;
      ConsSplit(h, lines, i);
      LinesOkCons(lines, i);
    }
  }

  /** Once the scan has stopped with a result, lines after it make no difference: they are never
      read, even malformed ones. */
  lemma {:induction false} ScanIgnoresLaterLines(lines: seq<seq<string>>, rest: seq<seq<string>>,
                                                 config: map<Key, Value>)
    requires |config| < 5
    requires Scan(lines, config).Success?
    ensures Scan(lines + rest, config) == Scan(lines, config)
    decreases |lines|
  {
    assert lines != [];
    assert (lines + rest)[0] == lines[0];
    assert (lines + rest)[1..] == lines[1..] + rest;
    if lines[0] == [] {
      ScanIgnoresLaterLines(lines[1..], rest, config);
    } else {
      match LineEffect(lines[0])
      case Raise(e) =>
      case Skip =>
        ScanIgnoresLaterLines(lines[1..], rest, config);
      case Store(k, v) =>
        if |config[k := v]| < 5 {
          ScanIgnoresLaterLines(lines[1..], rest, config[k := v]);
        }
    }
  }

  // ---------------------------------------------------------------------------------------------
  // What get_db_config returns

  lemma NothingWrittenYet()
    ensures Written([]) == map[] && !AllWritten([])
  {
    assert LastWrite([], Host) == None;
  }

  /** The settings are found exactly when some line is the first after which all five keys have
      been stored, with no error on the way; each key then holds the value of the last line up to
      that one that stores it. */
  lemma ConfigSuccess(lines: seq<seq<string>>, m: map<Key, Value>)
    ensures ConfigOf(lines) == Success(m)
            <==> exists n :: 0 < n <= |lines| && FirstComplete(lines, n) && m == Written(lines[..n])
  {
    NothingWrittenYet();
    if ConfigOf(lines) == Success(m) {
      var n := ScanSucceeds([], lines, m);
      assert [] + lines[..n] == lines[..n];
      forall j | 0 <= j < n ensures !AllWritten(lines[..j]) {
        assert [] + lines[..j] == lines[..j];
      }
      assert FirstComplete(lines, n);
    }
    if exists n :: 0 < n <= |lines| && FirstComplete(lines, n) && m == Written(lines[..n]) {
      var n :| 0 < n <= |lines| && FirstComplete(lines, n) && m == Written(lines[..n]);
      forall j | 0 <= j <= n ensures [] + lines[..j] == lines[..j] {
      }
      ScanReachesPrefix([], lines, n);
    }
  }

  /** The configuration is invalid exactly when every line is well formed but some key is never
      stored. */
  lemma ConfigInvalid(lines: seq<seq<string>>)
    ensures ConfigOf(lines) == Failure(InvalidConfig) <==> LinesOk(lines) && !AllWritten(lines)
  {
    NothingWrittenYet();
    ScanInvalid([], lines);
    assert [] + lines == lines;
  }

  /** A malformed line read before all five keys are stored ends the scan with its error: a
      selecting line without a second token, or a port that is not an integer. */
  lemma ConfigLineError(lines: seq<seq<string>>, e: ConfigError)
    requires ConfigOf(lines) == Failure(e) && e != InvalidConfig
    ensures exists i :: 0 <= i < |lines| && LinesOk(lines[..i]) && !AllWritten(lines[..i])
                        && LineEffect(lines[i]) == Raise(e)
  {
    NothingWrittenYet();
    var i := ScanFails([], lines, e);
    assert [] + lines[..i] == lines[..i];
  }

  /** A found configuration has exactly the five keys; the port is an integer and the other four
      are strings. */
  lemma ConfigShape(lines: seq<seq<string>>, m: map<Key, Value>)
    requires ConfigOf(lines) == Success(m)
    ensures m.Keys == AllKeys
    ensures forall k :: k in m ==> (m[k].Number? <==> k == Port)
  {
    ConfigSuccess(lines, m);
    var n :| 0 < n <= |lines| && FirstComplete(lines, n) && m == Written(lines[..n]);
    WrittenSize(lines[..n]);
    FiveKeysAreAll(m);
    forall k | k in m ensures m[k].Number? <==> k == Port {
      var i := LastWriteIsLastStore(lines[..n], k, m[k]);
      StoreIsSecondTokenStripped(lines[..n][i], k, m[k]);
    }
  }

  /** Lines after the one that completes the configuration are never read. */
  lemma ConfigIgnoresLaterLines(lines: seq<seq<string>>, rest: seq<seq<string>>)
    requires ConfigOf(lines).Success?
    ensures ConfigOf(lines + rest) == ConfigOf(lines)
  {
    ScanIgnoresLaterLines(lines, rest, map[]);
  }
}
