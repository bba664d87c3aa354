/** The data-file reader (`DataFileParser.parseFile`): a three-mode line
    grammar. A header line names the warehouses, one line per factory gives
    its name, its unit costs and its production, and a line starting with
    `demand` gives the warehouses' demands. Lines arrive already split at
    runs of white space; lower-casing and integer parsing are library calls
    and are passed in as a `Lexer`. */
module DataFileParser {
  import opened Results
  import opened CostTable

  /** `ParseMode`. */
  datatype Mode = WareHouses | Costs | Demands

  /** The library calls the parser relies on: `String.toLowerCase` and
      `Integer.parseInt` (None where the latter throws). */
  datatype Lexer = Lexer(lower: string -> string, parseInt: string -> Option<int>)

  /** The parser's locals between two lines: the mode, the warehouse array
      (None while it is still null), the factories so far and the flat list
      of costs so far. */
  datatype State = State(mode: Mode, warehouses: Option<seq<Warehouse>>, factories: seq<Factory>, costs: seq<int>)

  const Start := State(WareHouses, None, [], [])

  const HeaderMessage := "File needs to start with a line to define all warehouses."
  const DemandMessage := "Last line needs to specify the demands of the warehouses."

  /** The tokens of an empty line. Splitting the empty string yields one
      empty token; a non-empty line never yields exactly that. */
  predicate IsBlank(tokens: seq<string>) {
    tokens == [""]
  }

  /** `createWarehouses`: one warehouse per name, in order, demand not yet set. */
  function CreateWarehouses(names: seq<string>): (r: seq<Warehouse>)
    ensures |r| == |names|
    ensures forall k :: 0 <= k < |r| ==> r[k].name == names[k] && r[k].demand == 0
  {
    if names == [] then [] else [Warehouse(names[0], 0)] + CreateWarehouses(names[1..])
  }

  /** `Integer.parseInt` over a list of tokens, stopping at the first one
      that is not a number. */
  function ParseInts(lx: Lexer, tokens: seq<string>): (r: Result<seq<int>>)
    ensures r.Ok? <==> forall k :: 0 <= k < |tokens| ==> lx.parseInt(tokens[k]).Some?
    ensures r.Err? ==> r.failure == NumberFormat
    ensures r.Ok? ==> |r.value| == |tokens| && forall k :: 0 <= k < |tokens| ==> lx.parseInt(tokens[k]) == Some(r.value[k])
  {
    if tokens == [] then Ok([])
    else match lx.parseInt(tokens[0])
      case None => Err(NumberFormat)
      case Some(n) =>
        match ParseInts(lx, tokens[1..])
        case Err(f) => Err(f)
        case Ok(ns) => Ok([n] + ns)
  }

  /** `updateWarehouseDemands` from index `k` on: the k-th number goes to
      the k-th warehouse; the array access comes before the number is
      parsed, so a surplus token is an index failure even when it is not a
      number. */
  function UpdateDemandsFrom(lx: Lexer, ws: seq<Warehouse>, data: seq<string>, k: nat): (r: Result<seq<Warehouse>>)
    requires k <= |data| && k <= |ws|
    ensures r.Ok? <==> |data| <= |ws| && forall n :: k <= n < |data| ==> lx.parseInt(data[n]).Some?
    ensures r.Err? ==> r.failure == ArrayIndexOutOfBounds || r.failure == NumberFormat
    ensures r.Err? && r.failure == NumberFormat ==> exists n :: k <= n < |data| && n < |ws| && lx.parseInt(data[n]).None?
    ensures r.Err? && r.failure == ArrayIndexOutOfBounds ==> |data| > |ws|
    ensures r.Ok? ==> |r.value| == |ws| && forall n :: 0 <= n < |ws| ==>
      r.value[n] == if k <= n < |data| then ws[n].(demand := lx.parseInt(data[n]).value) else ws[n]
    decreases |data| - k
  {
    if k == |data| then Ok(ws)
    else if k >= |ws| then Err(ArrayIndexOutOfBounds)
    else match lx.parseInt(data[k])
      case None => Err(NumberFormat)
      case Some(d) => UpdateDemandsFrom(lx, ws[k := ws[k].(demand := d)], data, k + 1)
  }

  /** The `DEMANDS` case of the line switch: the line must start with
      `demand`; the remaining tokens are the demands. A null warehouse
      array fails as soon as a demand is stored into it. */
  function DemandLine(lx: Lexer, st: State, tokens: seq<string>): (r: Result<State>)
    ensures r.Ok? ==> r.value == st.(warehouses := r.value.warehouses)
    ensures (|tokens| < 1 || lx.lower(tokens[0]) != "demand") ==> r == Err(ParseFailure(DemandMessage))
  {
    if |tokens| < 1 || lx.lower(tokens[0]) != "demand" then Err(ParseFailure(DemandMessage))
    else
      match st.warehouses
      case None => if |tokens| > 1 then Err(NullPointer) else Ok(st)
      case Some(ws) =>
        match UpdateDemandsFrom(lx, ws, tokens[1..], 0)
        case Err(f) => Err(f)
        case Ok(ws') => Ok(st.(warehouses := Some(ws')))
  }

  /** The cost row of a factory line: the tokens between the name and the
      production. */
  function Middle(tokens: seq<string>): seq<string> {
    if |tokens| < 2 then [] else tokens[1..|tokens| - 1]
  }

  /** A factory line of the `COSTS` case: the first token is the name, the
      last the production, and the tokens in between are its unit costs,
      appended to the flat list of costs. */
  function FactoryLine(lx: Lexer, st: State, tokens: seq<string>): (r: Result<State>)
    requires |tokens| >= 1
    ensures r.Ok? <==> lx.parseInt(tokens[|tokens| - 1]).Some?
                       && forall k :: 0 <= k < |Middle(tokens)| ==> lx.parseInt(Middle(tokens)[k]).Some?
    ensures r.Err? ==> r.failure == NumberFormat
    ensures r.Ok? ==>
      && r.value.mode == st.mode && r.value.warehouses == st.warehouses
      && r.value.factories == st.factories + [Factory(tokens[0], lx.parseInt(tokens[|tokens| - 1]).value)]
      && |r.value.costs| == |st.costs| + |Middle(tokens)| && r.value.costs[..|st.costs|] == st.costs
  {
    match lx.parseInt(tokens[|tokens| - 1])
    case None => Err(NumberFormat)
    case Some(production) =>
      match ParseInts(lx, Middle(tokens))
      case Err(f) => Err(f)
      case Ok(row) =>
        Ok(st.(factories := st.factories + [Factory(tokens[0], production)], costs := st.costs + row))
  }

  /** One pass of the `while` loop of `parseFile`. An empty line is
      skipped. In `WARE_HOUSES` mode the line must be the header
      `costs <warehouse>... supply`. In `COSTS` mode a line whose first
      token is `demand` switches to `DEMANDS` and falls through to that
      case with the same line; any other line is a factory line. */
  function ParseLine(lx: Lexer, st: State, tokens: seq<string>): (r: Result<State>)
    ensures r.Err? ==> (r.failure == ParseFailure(HeaderMessage) <==> st.mode == WareHouses)
    ensures r.Ok? && st.mode == WareHouses && !IsBlank(tokens) ==> r.value.mode == Costs && r.value.warehouses.Some?
  {
    if IsBlank(tokens) then Ok(st)
    else match st.mode
      case WareHouses =>
        if |tokens| < 2 || lx.lower(tokens[0]) != "costs" || lx.lower(tokens[|tokens| - 1]) != "supply" then
          Err(ParseFailure(HeaderMessage))
        else
          Ok(st.(mode := Costs, warehouses := Some(CreateWarehouses(tokens[1..|tokens| - 1]))))
      case Costs =>
        if |tokens| == 0 then Err(ArrayIndexOutOfBounds)
        else if lx.lower(tokens[0]) == "demand" then DemandLine(lx, st.(mode := Demands), tokens)
        else FactoryLine(lx, st, tokens)
      case Demands =>
        DemandLine(lx, st, tokens)
  }

  /** The whole `while` loop: the lines in order, the first failure
      aborting the parse. */
  function ParseLines(lx: Lexer, st: State, lines: seq<seq<string>>): (r: Result<State>)
    ensures r.Ok? ==>
      && Rank(st.mode) <= Rank(r.value.mode)
      && |st.factories| <= |r.value.factories| && r.value.factories[..|st.factories|] == st.factories
      && |st.costs| <= |r.value.costs| && r.value.costs[..|st.costs|] == st.costs
    decreases |lines|
  {
    if lines == [] then Ok(st)
    else match ParseLine(lx, st, lines[0])
      case Err(f) => Err(f)
      case Ok(st') =>
        ParseLineEffect(lx, st, lines[0]);
        ParseLines(lx, st', lines[1..])
  }

  /** `parseFile` over the lines of a file: the loop, then a cost table over
      the factories and warehouses read, filled with the costs. A file
      without a header leaves the warehouse array null, which the table
      constructor dereferences. */
  function ParseFile(lx: Lexer, lines: seq<seq<string>>): (r: Result<Table>)
    ensures var p := ParseLines(lx, Start, lines);
      r.Ok? <==> p.Ok? && p.value.warehouses.Some?
                 && |p.value.costs| <= |p.value.factories| * |p.value.warehouses.value|
    ensures r.Ok? ==> var st := ParseLines(lx, Start, lines).value;
      && Valid(r.value)
      && r.value.factories == st.factories && Some(r.value.warehouses) == st.warehouses
      && forall i, j :: InBounds(r.value, i, j) ==> Alloc(r.value, i, j) == 0
  {
    match ParseLines(lx, Start, lines)
    case Err(f) => Err(f)
    case Ok(st) =>
      match st.warehouses
      case None => Err(NullPointer)
      case Some(ws) => AddCosts(NewTable(st.factories, ws), st.costs)
  }

  // ---------------------------------------------------------------------------
  // Properties of a single line
  // ---------------------------------------------------------------------------

  /** Modes only move forward. */
  function Rank(m: Mode): nat {
    match m
    case WareHouses => 0
    case Costs => 1
    case Demands => 2
  }

  /** The states the loop can reach: the warehouse array is set exactly
      once the header was read, and nothing else is read before it. */
  predicate Reachable(st: State) {
    && (st.mode == WareHouses <==> st.warehouses.None?)
    && (st.mode == WareHouses ==> st.factories == [] && st.costs == [])
  }

  /** What one line can do to the state: an empty line nothing; otherwise
      the mode never moves backwards, factories and costs only grow at the
      end, factories only in `COSTS` mode, and reachable states stay
      reachable. */
  lemma ParseLineEffect(lx: Lexer, st: State, tokens: seq<string>)
    ensures IsBlank(tokens) ==> ParseLine(lx, st, tokens) == Ok(st)
    ensures var r := ParseLine(lx, st, tokens); r.Ok? ==>
      && Rank(st.mode) <= Rank(r.value.mode)
      && |st.factories| <= |r.value.factories| <= |st.factories| + 1
      && r.value.factories[..|st.factories|] == st.factories
      && r.value.costs[..|st.costs|] == st.costs
      && (st.mode != Costs ==> r.value.factories == st.factories && r.value.costs == st.costs)
      && (Reachable(st) ==> Reachable(r.value))
  {
  }

  /** The header line: accepted exactly when it has at least two tokens,
      starts with `costs` and ends with `supply`; the warehouses are the
      tokens in between, in order, and the parser moves to `COSTS`. */
  lemma HeaderLine(lx: Lexer, tokens: seq<string>)
    requires !IsBlank(tokens)
    ensures var r := ParseLine(lx, Start, tokens);
      && (r.Ok? <==> |tokens| >= 2 && lx.lower(tokens[0]) == "costs" && lx.lower(tokens[|tokens| - 1]) == "supply")
      && (r.Err? ==> r.failure == ParseFailure(HeaderMessage))
      && (r.Ok? ==>
            && r.value.mode == Costs && r.value.warehouses.Some?
            && |r.value.warehouses.value| == |tokens| - 2
            && forall k :: 0 <= k < |tokens| - 2 ==> r.value.warehouses.value[k] == Warehouse(tokens[k + 1], 0))
  {
  }

  /** The fall-through: in `COSTS` mode a line starting with `demand` does
      exactly what it does in `DEMANDS` mode. */
  lemma DemandFallsThrough(lx: Lexer, st: State, tokens: seq<string>)
    requires st.mode == Costs && !IsBlank(tokens) && |tokens| >= 1 && lx.lower(tokens[0]) == "demand"
    ensures ParseLine(lx, st, tokens) == ParseLine(lx, st.(mode := Demands), tokens)
    ensures ParseLine(lx, st, tokens).Ok? ==> ParseLine(lx, st, tokens).value.mode == Demands
  {
  }

  /** A factory line in `COSTS` mode: it adds one factory named by the
      first token with the production of the last, and appends the numbers
      in between to the costs; it fails exactly when one of those tokens
      is not a number. */
  lemma CostLine(lx: Lexer, st: State, tokens: seq<string>)
    requires st.mode == Costs && !IsBlank(tokens) && |tokens| >= 1 && lx.lower(tokens[0]) != "demand"
    ensures var r := ParseLine(lx, st, tokens);
      && (r.Ok? <==> lx.parseInt(tokens[|tokens| - 1]).Some?
                     && forall k :: 1 <= k < |tokens| - 1 ==> lx.parseInt(tokens[k]).Some?)
      && (r.Err? ==> r.failure == NumberFormat)
      && (r.Ok? ==>
            && r.value.mode == Costs
            && r.value.factories == st.factories + [Factory(tokens[0], lx.parseInt(tokens[|tokens| - 1]).value)]
            && |r.value.costs| == |st.costs| + |Middle(tokens)|
            && forall k :: 1 <= k < |tokens| - 1 ==> lx.parseInt(tokens[k]) == Some(r.value.costs[|st.costs| + k - 1]))
  {
    var r := ParseLine(lx, st, tokens);
    var m := Middle(tokens);
    assert forall k :: 1 <= k < |tokens| - 1 ==> tokens[k] == m[k - 1];
    if lx.parseInt(tokens[|tokens| - 1]).Some? && ParseInts(lx, m).Ok? {
      var row := ParseInts(lx, m).value;
      assert r.value.costs == st.costs + row;
      forall k | 1 <= k < |tokens| - 1
        ensures lx.parseInt(tokens[k]) == Some(r.value.costs[|st.costs| + k - 1])
      {
        assert r.value.costs[|st.costs| + k - 1] == row[k - 1];
      }
    }
    if r.Ok? {
      forall k | 1 <= k < |tokens| - 1 ensures lx.parseInt(tokens[k]).Some? {
        assert lx.parseInt(m[k - 1]).Some?;
      }
    }
  }

  /** A demand line: it must start with `demand`; the k-th following token
      sets the demand of the k-th warehouse and leaves the others as they
      were. More numbers than warehouses fail on the array index. */
  lemma DemandLineEffect(lx: Lexer, st: State, tokens: seq<string>)
    requires st.mode == Demands && st.warehouses.Some? && !IsBlank(tokens)
    ensures var r := ParseLine(lx, st, tokens); var ws := st.warehouses.value;
      && ((|tokens| < 1 || lx.lower(tokens[0]) != "demand") ==> r == Err(ParseFailure(DemandMessage)))
      && (|tokens| >= 1 && lx.lower(tokens[0]) == "demand" ==>
            && (r.Ok? <==> |tokens| - 1 <= |ws| && forall k :: 1 <= k < |tokens| ==> lx.parseInt(tokens[k]).Some?)
            && (|tokens| - 1 > |ws| ==> r.Err?)
            && (r.Ok? ==>
                  && r.value.mode == Demands && r.value.factories == st.factories && r.value.costs == st.costs
                  && |r.value.warehouses.value| == |ws|
                  && forall n :: 0 <= n < |ws| ==>
                       r.value.warehouses.value[n] ==
                         if n < |tokens| - 1 then ws[n].(demand := lx.parseInt(tokens[n + 1]).value) else ws[n]))
  {
    if |tokens| >= 1 && lx.lower(tokens[0]) == "demand" {
      var data := tokens[1..];
      assert forall k :: 1 <= k < |tokens| ==> tokens[k] == data[k - 1];
      var u := UpdateDemandsFrom(lx, st.warehouses.value, data, 0);
      if u.Ok? {
        forall k | 1 <= k < |tokens| ensures lx.parseInt(tokens[k]).Some? {
          assert lx.parseInt(data[k - 1]).Some?;
        }
      }
      if |data| <= |st.warehouses.value| && forall k :: 1 <= k < |tokens| ==> lx.parseInt(tokens[k]).Some? {
        assert forall n :: 0 <= n < |data| ==> lx.parseInt(data[n]).Some? by {
          forall n | 0 <= n < |data| ensures lx.parseInt(data[n]).Some? {
            assert data[n] == tokens[n + 1];
          }
        }
      }
    }
  }

  // ---------------------------------------------------------------------------
  // Properties of the whole file
  // ---------------------------------------------------------------------------

  /** The lines that are not empty. */
  function NonBlank(lines: seq<seq<string>>): (r: seq<seq<string>>)
    ensures forall k :: 0 <= k < |r| ==> !IsBlank(r[k])
  {
    if lines == [] then []
    else if IsBlank(lines[0]) then NonBlank(lines[1..])
    else [lines[0]] + NonBlank(lines[1..])
  }

  /** Empty lines may appear anywhere and change nothing: the parse of a
      file equals the parse of its non-empty lines. */
  lemma {:induction false} BlankLinesIgnored(lx: Lexer, st: State, lines: seq<seq<string>>)
    ensures ParseLines(lx, st, lines) == ParseLines(lx, st, NonBlank(lines))
    decreases |lines|
  {
    if lines != [] {
      if IsBlank(lines[0]) {
        BlankLinesIgnored(lx, st, lines[1..]);
      } else {
        match ParseLine(lx, st, lines[0])
        case Err(_) =>
        case Ok(st') =>
          BlankLinesIgnored(lx, st', lines[1..]);
          assert ([lines[0]] + NonBlank(lines[1..]))[1..] == NonBlank(lines[1..]);
      }
    }
  }

  /** The loop keeps the state reachable, so the warehouse array is null
      after it exactly when no header was read, and then there are no
      factories and no costs. */
  lemma {:induction false} ParseLinesReachable(lx: Lexer, st: State, lines: seq<seq<string>>)
    requires Reachable(st)
    ensures ParseLines(lx, st, lines).Ok? ==> Reachable(ParseLines(lx, st, lines).value)
    decreases |lines|
  {
    if lines != [] {
      ParseLineEffect(lx, st, lines[0]);
      match ParseLine(lx, st, lines[0])
      case Err(_) =>
      case Ok(st') => ParseLinesReachable(lx, st', lines[1..]);
    }
  }

  /** A file of nothing but empty lines has no header: the table
      constructor then fails on the null warehouse array. */
  lemma NoHeaderFails(lx: Lexer, lines: seq<seq<string>>)
    requires forall k :: 0 <= k < |lines| ==> IsBlank(lines[k])
    ensures ParseFile(lx, lines) == Err(NullPointer)
  {
    BlankLinesIgnored(lx, Start, lines);
    assert NonBlank(lines) == [] by {
      if NonBlank(lines) != [] {
        NonBlankFrom(lines, 0);
      }
    }
  }

  /** Every non-empty line survives `NonBlank`; an all-blank suffix
      contributes nothing. */
  lemma {:induction false} NonBlankFrom(lines: seq<seq<string>>, k: nat)
    requires k <= |lines|
    requires forall n :: 0 <= n < |lines| ==> IsBlank(lines[n])
    ensures NonBlank(lines[k..]) == []
    decreases |lines| - k
  {
    if k < |lines| {
      NonBlankFrom(lines, k + 1);
      assert lines[k..][1..] == lines[k + 1..];
    }
  }

  // ---------------------------------------------------------------------------
  // Round trip: a problem written in the file format reads back as itself
  // ---------------------------------------------------------------------------

  /** A transportation problem as the file describes it: warehouses with
      demands, factories with productions, and one row of unit costs per
      factory. */
  datatype Problem = Problem(warehouses: seq<Warehouse>, factories: seq<Factory>, prices: seq<seq<int>>)

  predicate Rectangular(p: Problem) {
    && |p.prices| == |p.factories|
    && forall i :: 0 <= i < |p.prices| ==> |p.prices[i]| == |p.warehouses|
  }

  function Names(ws: seq<Warehouse>): (r: seq<string>)
    ensures |r| == |ws| && forall k :: 0 <= k < |ws| ==> r[k] == ws[k].name
  {
    if ws == [] then [] else [ws[0].name] + Names(ws[1..])
  }

  function Shows(show: int -> string, ns: seq<int>): (r: seq<string>)
    ensures |r| == |ns| && forall k :: 0 <= k < |ns| ==> r[k] == show(ns[k])
  {
    if ns == [] then [] else [show(ns[0])] + Shows(show, ns[1..])
  }

  function DemandsOf(ws: seq<Warehouse>): (r: seq<int>)
    ensures |r| == |ws| && forall k :: 0 <= k < |ws| ==> r[k] == ws[k].demand
  {
    if ws == [] then [] else [ws[0].demand] + DemandsOf(ws[1..])
  }

  function FactoryLines(show: int -> string, fs: seq<Factory>, prices: seq<seq<int>>): seq<seq<string>>
    requires |prices| == |fs|
  {
    if fs == [] then []
    else [[fs[0].name] + Shows(show, prices[0]) + [show(fs[0].production)]] + FactoryLines(show, fs[1..], prices[1..])
  }

  /** The file of a problem: header, one line per factory, demand line. */
  function Render(show: int -> string, p: Problem): seq<seq<string>>
    requires Rectangular(p)
  {
    [["costs"] + Names(p.warehouses) + ["supply"]]
      + FactoryLines(show, p.factories, p.prices)
      + [["demand"] + Shows(show, DemandsOf(p.warehouses))]
  }

  /** The rows of a cost matrix concatenated, row after row. */
  function Flatten(rows: seq<seq<int>>): seq<int> {
    if rows == [] then [] else rows[0] + Flatten(rows[1..])
  }

  /** The table a problem stands for: its prices, nothing shipped yet. */
  function ProblemTable(p: Problem): (t: Table)
    requires Rectangular(p)
    ensures Valid(t)
  {
    Table(p.factories, p.warehouses,
      seq(|p.factories|, i requires 0 <= i < |p.factories| =>
        seq(|p.warehouses|, j requires 0 <= j < |p.warehouses| => Cell(p.prices[i][j], 0))))
  }

  /** What the round trip needs of the library calls and of the names: the
      keywords lower-case to themselves, no factory name lower-cases to
      `demand`, and parsing a number's text gives the number back. */
  ghost predicate Readable(lx: Lexer, show: int -> string, p: Problem) {
    && lx.lower("costs") == "costs"
    && lx.lower("supply") == "supply"
    && lx.lower("demand") == "demand"
    && (forall k :: 0 <= k < |p.factories| ==> lx.lower(p.factories[k].name) != "demand")
    && (forall n :: lx.parseInt(show(n)) == Some(n))
  }

  lemma {:induction false} FlattenIndex(rows: seq<seq<int>>, w: nat, i: int, j: int)
    requires forall k :: 0 <= k < |rows| ==> |rows[k]| == w
    requires 0 <= i < |rows| && 0 <= j < w
    ensures |Flatten(rows)| == |rows| * w
    ensures i * w + j < |Flatten(rows)| && Flatten(rows)[i * w + j] == rows[i][j]
    decreases |rows|
  {
    FlattenLength(rows, w);
    if i > 0 {
      FlattenIndex(rows[1..], w, i - 1, j);
      NextRow(i - 1, w);
    }
  }

  lemma {:induction false} FlattenLength(rows: seq<seq<int>>, w: nat)
    requires forall k :: 0 <= k < |rows| ==> |rows[k]| == w
    ensures |Flatten(rows)| == |rows| * w
    decreases |rows|
  {
    if rows != [] {
      FlattenLength(rows[1..], w);
      NextRow(|rows| - 1, w);
    }
  }

  /** The factory lines read in `COSTS` mode add the factories in order and
      append their cost rows, row after row. */
  lemma {:induction false} FactoryLinesRead(lx: Lexer, show: int -> string, st: State, fs: seq<Factory>,
                                            prices: seq<seq<int>>, tail: seq<seq<string>>)
    requires st.mode == Costs && |prices| == |fs|
    requires lx.lower("demand") == "demand"
    requires forall k :: 0 <= k < |fs| ==> lx.lower(fs[k].name) != "demand"
    requires forall n :: lx.parseInt(show(n)) == Some(n)
    ensures ParseLines(lx, st, FactoryLines(show, fs, prices) + tail)
         == ParseLines(lx, st.(factories := st.factories + fs, costs := st.costs + Flatten(prices)), tail)
    decreases |fs|
  {
    if fs != [] {
      var st' := st.(factories := st.factories + [fs[0]], costs := st.costs + prices[0]);
      var done := st.(factories := st.factories + fs, costs := st.costs + Flatten(prices));
      assert st'.(factories := st'.factories + fs[1..], costs := st'.costs + Flatten(prices[1..])) == done by {
        assert st'.factories + fs[1..] == st.factories + fs;
        assert st'.costs + Flatten(prices[1..]) == st.costs + Flatten(prices);
      }
      assert forall k :: 0 <= k < |fs[1..]| ==> lx.lower(fs[1..][k].name) != "demand" by {
        forall k | 0 <= k < |fs[1..]| ensures lx.lower(fs[1..][k].name) != "demand" {
          assert fs[1..][k] == fs[k + 1];
        }
      }
      FactoryLinesHead(lx, show, st, fs, prices, tail);
      FactoryLinesRead(lx, show, st', fs[1..], prices[1..], tail);
    } else {
      assert FactoryLines(show, fs, prices) + tail == tail;
      assert st.(factories := st.factories + fs, costs := st.costs + Flatten(prices)) == st;
    }
  }

  /** The first of the factory lines, read in `COSTS` mode. */
  lemma FactoryLinesHead(lx: Lexer, show: int -> string, st: State, fs: seq<Factory>,
                         prices: seq<seq<int>>, tail: seq<seq<string>>)
    requires st.mode == Costs && |prices| == |fs| && fs != []
    requires lx.lower(fs[0].name) != "demand"
    requires forall n :: lx.parseInt(show(n)) == Some(n)
    ensures ParseLines(lx, st, FactoryLines(show, fs, prices) + tail)
         == ParseLines(lx, st.(factories := st.factories + [fs[0]], costs := st.costs + prices[0]),
                       FactoryLines(show, fs[1..], prices[1..]) + tail)
  {
    var line := [fs[0].name] + Shows(show, prices[0]) + [show(fs[0].production)];
    var rest := FactoryLines(show, fs[1..], prices[1..]) + tail;
    assert FactoryLines(show, fs, prices) + tail == [line] + rest;
    FactoryLineRead(lx, show, st, fs[0], prices[0]);
    ParseLinesCons(lx, st, line, rest);
  }

  lemma ParseLinesCons(lx: Lexer, st: State, line: seq<string>, rest: seq<seq<string>>)
    requires ParseLine(lx, st, line).Ok?
    ensures ParseLines(lx, st, [line] + rest) == ParseLines(lx, ParseLine(lx, st, line).value, rest)
  {
    assert ([line] + rest)[1..] == rest;
  }

  /** One rendered factory line, read in `COSTS` mode. */
  lemma FactoryLineRead(lx: Lexer, show: int -> string, st: State, f: Factory, row: seq<int>)
    requires st.mode == Costs
    requires lx.lower(f.name) != "demand"
    requires forall n :: lx.parseInt(show(n)) == Some(n)
    ensures ParseLine(lx, st, [f.name] + Shows(show, row) + [show(f.production)])
         == Ok(st.(factories := st.factories + [f], costs := st.costs + row))
  {
    var line := [f.name] + Shows(show, row) + [show(f.production)];
    assert !IsBlank(line);
    assert line[0] == f.name && line[|line| - 1] == show(f.production);
    assert Middle(line) == Shows(show, row);
    ParseShows(lx, show, row);
  }

  lemma {:induction false} ParseShows(lx: Lexer, show: int -> string, ns: seq<int>)
    requires forall n :: lx.parseInt(show(n)) == Some(n)
    ensures ParseInts(lx, Shows(show, ns)) == Ok(ns)
    decreases |ns|
  {
    if ns != [] {
      var ts := Shows(show, ns);
      ParseShows(lx, show, ns[1..]);
      assert ts[1..] == Shows(show, ns[1..]);
      assert lx.parseInt(ts[0]) == Some(ns[0]);
      assert ParseInts(lx, ts) == Ok([ns[0]] + ns[1..]);
      assert [ns[0]] + ns[1..] == ns;
    }
  }

  lemma {:induction false} CreateNames(ws: seq<Warehouse>)
    ensures forall k :: 0 <= k < |ws| ==> CreateWarehouses(Names(ws))[k] == ws[k].(demand := 0)
  {
  }

  /** The header of a rendered problem names its warehouses, without demands. */
  lemma HeaderRead(lx: Lexer, show: int -> string, p: Problem)
    requires Rectangular(p) && Readable(lx, show, p)
    ensures ParseLine(lx, Start, ["costs"] + Names(p.warehouses) + ["supply"])
         == Ok(State(Costs, Some(CreateWarehouses(Names(p.warehouses))), [], []))
  {
    var header := ["costs"] + Names(p.warehouses) + ["supply"];
    assert header[1..|header| - 1] == Names(p.warehouses);
  }

  /** The demand line of a rendered problem, read after its factory lines,
      restores every warehouse's demand. */
  lemma DemandRead(lx: Lexer, show: int -> string, p: Problem, st: State)
    requires Rectangular(p) && Readable(lx, show, p)
    requires st.mode == Costs && st.warehouses == Some(CreateWarehouses(Names(p.warehouses)))
    ensures ParseLines(lx, st, [["demand"] + Shows(show, DemandsOf(p.warehouses))])
         == Ok(st.(mode := Demands, warehouses := Some(p.warehouses)))
  {
    var demand := ["demand"] + Shows(show, DemandsOf(p.warehouses));
    var blank := CreateWarehouses(Names(p.warehouses));
    var data := demand[1..];
    assert data == Shows(show, DemandsOf(p.warehouses));
    var u := UpdateDemandsFrom(lx, blank, data, 0);
    assert u.Ok?;
    CreateNames(p.warehouses);
    assert u.value == p.warehouses;
    var s3 := st.(mode := Demands, warehouses := Some(p.warehouses));
    assert demand[0] == "demand" && !IsBlank(demand);
    assert DemandLine(lx, st.(mode := Demands), demand) == Ok(s3);
    assert ParseLine(lx, st, demand) == Ok(s3);
    ParseLinesCons(lx, st, demand, []);
    assert [demand] + [] == [demand];
  }

  /** The loop over a rendered problem ends in demand mode with the
      problem's warehouses, its factories and its costs row after row. */
  lemma RenderedLinesRead(lx: Lexer, show: int -> string, p: Problem)
    requires Rectangular(p) && Readable(lx, show, p)
    ensures ParseLines(lx, Start, Render(show, p))
         == Ok(State(Demands, Some(p.warehouses), p.factories, Flatten(p.prices)))
  {
    var header := ["costs"] + Names(p.warehouses) + ["supply"];
    var demand := ["demand"] + Shows(show, DemandsOf(p.warehouses));
    var body := FactoryLines(show, p.factories, p.prices);
    assert Render(show, p) == [header] + (body + [demand]);
    var s1 := State(Costs, Some(CreateWarehouses(Names(p.warehouses))), [], []);
    var s2 := s1.(factories := p.factories, costs := Flatten(p.prices));
    HeaderRead(lx, show, p);
    ParseLinesCons(lx, Start, header, body + [demand]);
    FactoryLinesRead(lx, show, s1, p.factories, p.prices, [demand]);
    assert s1.(factories := s1.factories + p.factories, costs := s1.costs + Flatten(p.prices)) == s2;
    DemandRead(lx, show, p, s2);
  }

  /** Filling a new table over the problem's factories and warehouses with
      its costs, row after row, gives the problem's table. */
  lemma ProblemTableBuilt(p: Problem)
    requires Rectangular(p)
    ensures AddCosts(NewTable(p.factories, p.warehouses), Flatten(p.prices)) == Ok(ProblemTable(p))
  {
    var t0 := NewTable(p.factories, p.warehouses);
    var w := |p.warehouses|;
    FlattenLength(p.prices, w);
    var r := AddCosts(t0, Flatten(p.prices));
    assert r.Ok?;
    AddCostsPlacement(t0, Flatten(p.prices));
    var e := ProblemTable(p);
    forall i | 0 <= i < |p.factories| ensures r.value.cells[i] == e.cells[i] {
      forall j | 0 <= j < w ensures r.value.cells[i][j] == e.cells[i][j] {
        FlattenIndex(p.prices, w, i, j);
        assert Price(r.value, i, j) == p.prices[i][j];
        assert Alloc(r.value, i, j) == Alloc(t0, i, j);
      }
    }
    assert r.value.cells == e.cells;
  }

  /** Round trip: writing a problem in the file format and reading it back
      gives the cost table of that problem, with every demand and
      production as written and nothing shipped. */
  lemma RoundTrip(lx: Lexer, show: int -> string, p: Problem)
    requires Rectangular(p) && Readable(lx, show, p)
    ensures ParseFile(lx, Render(show, p)) == Ok(ProblemTable(p))
  {
    RenderedLinesRead(lx, show, p);
    ProblemTableBuilt(p);
  }
}
