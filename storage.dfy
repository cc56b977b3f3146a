/**
 * The plain-text store of hrex/structure/storage.py (`PlainText`).
 *
 * `save` writes a header line starting with `%%` and then one line per entry,
 * three fields separated by single spaces; `load` skips the lines starting
 * with `%%`, splits the others on whitespace and fills a dict. A file is
 * modelled as the list of its lines without their terminators: `Save` returns
 * the lines it writes and `Load` is given the lines it reads. The round trips
 * are `LoadSaveRels` and `LoadSaveWords`.
 */
module Storage {
  import opened PyBuiltins
  import opened Dictionaries

  /** A `drels` key `(idw, idc)`. */
  type RelKey = (int, int)

  // ---------------------------------------------------------------------------
  // The file name.

  /** The file of `dtype`: `fname` with every occurrence of its basename `b`
      replaced by `dtype + '_' + b`. */
  function StoragePath(fname: string, dtype: string): string
  {
    var b := Basename(fname);
    Replace(fname, b, dtype + "_" + b)
  }

  predicate OccursAt(s: string, pat: string, i: nat)
  {
    i + |pat| <= |s| && s[i..i + |pat|] == pat
  }

  /** Dropping the first character keeps `pat` out of the earlier positions. */
  lemma NoOccurrenceShift(s: string, pat: string)
    requires |pat| < |s|
    requires forall i: nat :: i < |s| - |pat| ==> !OccursAt(s, pat, i)
    ensures forall i: nat :: i < |s| - 1 - |pat| ==> !OccursAt(s[1..], pat, i)
  {
    var t := s[1..];
    forall i: nat | i < |t| - |pat| ensures !OccursAt(t, pat, i) {
      assert !OccursAt(s, pat, i + 1);
      assert t[i..i + |pat|] == s[i + 1..i + 1 + |pat|];
    }
  }

  /** A pattern found only as a suffix is replaced there alone. */
  lemma {:induction false} ReplaceOnlySuffix(s: string, pat: string, rep: string)
    requires pat != [] && |pat| <= |s| && s[|s| - |pat|..] == pat
    requires forall i: nat :: i < |s| - |pat| ==> !OccursAt(s, pat, i)
    ensures Replace(s, pat, rep) == s[..|s| - |pat|] + rep
    decreases |s|
  {
    if |s| == |pat| {
      assert s[..|pat|] == pat;
      assert s[|pat|..] == [];
    } else {
      assert !OccursAt(s, pat, 0);
      var t := s[1..];
      assert t[|t| - |pat|..] == s[|s| - |pat|..];
      NoOccurrenceShift(s, pat);
      ReplaceOnlySuffix(t, pat, rep);
      assert Replace(s, pat, rep) == [s[0]] + Replace(t, pat, rep);
      assert [s[0]] + t[..|t| - |pat|] == s[..|s| - |pat|];
    }
  }

  /** The basename of a directory prefix followed by a name without `/`. */
  lemma {:induction false} BasenameAppend(dir: string, name: string)
    requires '/' !in name
    requires dir == [] || dir[|dir| - 1] == '/'
    ensures Basename(dir + name) == name
    decreases |name|
  {
    if name == [] {
      assert dir + name == dir;
    } else {
      var init := name[..|name| - 1];
      assert (dir + name)[..|dir + name| - 1] == dir + init;
      BasenameAppend(dir, init);
      assert init + [name[|name| - 1]] == name;
    }
  }

  /** For a file `dir + name` whose name occurs nowhere earlier, the file of
      `dtype` is `dir + dtype + '_' + name`: the same directory, the prefixed
      name. */
  lemma StoragePathOfFile(dir: string, name: string, dtype: string)
    requires name != [] && '/' !in name && (dir == [] || dir[|dir| - 1] == '/')
    requires forall i: nat :: i < |dir| ==> !OccursAt(dir + name, name, i)
    ensures StoragePath(dir + name, dtype) == dir + dtype + "_" + name
    ensures '/' !in dtype ==> Basename(StoragePath(dir + name, dtype)) == dtype + "_" + name
  {
    BasenameAppend(dir, name);
    ReplaceName(dir, name, dtype + "_" + name);
    assert dir + (dtype + "_" + name) == dir + dtype + "_" + name;
    if '/' !in dtype {
      assert '/' !in dtype + "_" + name;
      BasenameAppend(dir, dtype + "_" + name);
    }
  }

  lemma ReplaceName(dir: string, name: string, rep: string)
    requires name != []
    requires forall i: nat :: i < |dir| ==> !OccursAt(dir + name, name, i)
    ensures Replace(dir + name, name, rep) == dir + rep
  {
    var fname := dir + name;
    assert fname[|fname| - |name|..] == name;
    assert fname[..|fname| - |name|] == dir;
    ReplaceOnlySuffix(fname, name, rep);
  }

  lemma ReplaceWhole(pat: string, rep: string)
    requires pat != []
    ensures Replace(pat, pat, rep) == rep
  {
    assert pat[..|pat|] == pat && pat[|pat|..] == [];
    assert Replace([], pat, rep) == [];
  }

  /** A basename that is also the name of its directory is replaced there
      too: `name/name` is stored in `dtype_name/dtype_name`. */
  lemma StoragePathRepeats(name: string, dtype: string)
    requires name != [] && '/' !in name
    ensures StoragePath(name + "/" + name, dtype) == dtype + "_" + name + "/" + dtype + "_" + name
  {
    var s := name + "/" + name;
    var rep := dtype + "_" + name;
    assert s == (name + "/") + name;
    BasenameAppend(name + "/", name);
    assert s[..|name|] == name && s[|name|..] == "/" + name;
    var t := "/" + name;
    assert t[..|name|] != name by {
      assert t[..|name|][0] == '/' && name[0] != '/';
    }
    assert t[1..] == name;
    ReplaceWhole(name, rep);
    assert Replace(t, name, rep) == "/" + rep;
    assert Replace(s, name, rep) == rep + ("/" + rep);
  }

  // ---------------------------------------------------------------------------
  // Saving.

  /** The dictionary handed to `save`, with the order Python iterates it:
      a `DictRels` (`(idw, idc) -> f`) or a `DictWords` (`w -> (id, f)`). */
  datatype Stored = RelsDict(rels: map<RelKey, int>, relOrder: seq<RelKey>)
                  | WordsDict(words: map<string, Entry>, wordOrder: seq<string>)

  /** Every key listed is stored (the iteration order lists them all, once;
      `save` needs only this half). */
  predicate Listed(dic: Stored)
  {
    match dic
    case RelsDict(rels, order) => forall k :: 0 <= k < |order| ==> order[k] in rels
    case WordsDict(words, order) => forall k :: 0 <= k < |order| ==> order[k] in words
  }

  predicate IsWordsType(dtype: string)
  {
    dtype == "dwords" || dtype == "dctxs"
  }

  predicate KnownType(dtype: string)
  {
    dtype == "drels" || IsWordsType(dtype)
  }

  function RelsHeader(transposed: bool): string
  {
    if transposed then "%%idc idw freq" else "%%idw idc freq"
  }

  function WordsHeader(transposed: bool): string
  {
    if transposed then "%%id word freq" else "%%word id freq"
  }

  /** `'%d %d %d' % (idw, idc, f)`, or `(idc, idw, f)` transposed. */
  function RelLine(key: RelKey, f: int, transposed: bool): string
  {
    if transposed then Join([IntToDecimal(key.1), IntToDecimal(key.0), IntToDecimal(f)], " ")
    else Join([IntToDecimal(key.0), IntToDecimal(key.1), IntToDecimal(f)], " ")
  }

  /** `'%s %d %d' % (key, id, f)`, or `'%d %s %d' % (id, key, f)` transposed. */
  function WordLine(w: string, e: Entry, transposed: bool): string
  {
    if transposed then Join([IntToDecimal(e.0), w, IntToDecimal(e.1)], " ")
    else Join([w, IntToDecimal(e.0), IntToDecimal(e.1)], " ")
  }

  function RelLines(d: map<RelKey, int>, order: seq<RelKey>, transposed: bool): seq<string>
    requires forall k :: 0 <= k < |order| ==> order[k] in d
  {
    if order == [] then []
    else RelLines(d, order[..|order| - 1], transposed) + [RelLine(order[|order| - 1], d[order[|order| - 1]], transposed)]
  }

  function WordLines(d: map<string, Entry>, order: seq<string>, transposed: bool): seq<string>
    requires forall k :: 0 <= k < |order| ==> order[k] in d
  {
    if order == [] then []
    else WordLines(d, order[..|order| - 1], transposed) + [WordLine(order[|order| - 1], d[order[|order| - 1]], transposed)]
  }

  /** What the callers of `save` must pass: a dictionary of the kind `dtype`
      names, listed in its iteration order. */
  predicate SaveArgs(dic: Stored, dtype: string)
  {
    Listed(dic) && (dtype == "drels" ==> dic.RelsDict?) && (IsWordsType(dtype) ==> dic.WordsDict?)
  }

  /** The lines `save` writes: the header and one line per entry, or nothing
      for an unknown `dtype` (the file is opened, and so emptied, before the
      error). */
  function SavedLines(dic: Stored, dtype: string, transposed: bool): seq<string>
    requires SaveArgs(dic, dtype)
  {
    if dtype == "drels" then [RelsHeader(transposed)] + RelLines(dic.rels, dic.relOrder, transposed)
    else if IsWordsType(dtype) then [WordsHeader(transposed)] + WordLines(dic.words, dic.wordOrder, transposed)
    else []
  }

  // ---------------------------------------------------------------------------
  // Loading.

  /** What `load` returns: a dict, with pair keys for `drels` and word keys
      for `dwords`/`dctxs`, or `False` for an unknown `dtype`. */
  datatype Loaded = Dict(rels: map<RelKey, int>, words: map<string, Entry>) | False

  const EmptyDict := Dict(map[], map[])

  /** `id1, id2, f = map(int, arr)`: three integers, or `ValueError` for a
      field that is not one or for a count other than three. */
  function ParseRel(arr: seq<string>): Result<(int, int, int)>
  {
    if |arr| != 3 || ParseInt(arr[0]).None? || ParseInt(arr[1]).None? || ParseInt(arr[2]).None? then Err(ValueError)
    else Ok((ParseInt(arr[0]).value, ParseInt(arr[1]).value, ParseInt(arr[2]).value))
  }

  /** `int(arr[0]), arr[1], int(arr[2])` transposed, `arr[0], int(arr[1]),
      int(arr[2])` otherwise, evaluated left to right: the word and its entry,
      or the first `IndexError` or `ValueError`. */
  function ParseWord(arr: seq<string>, transposed: bool): Result<(string, Entry)>
  {
    if transposed then
      if |arr| < 1 then Err(IndexError)
      else if ParseInt(arr[0]).None? then Err(ValueError)
      else if |arr| < 3 then Err(IndexError)
      else if ParseInt(arr[2]).None? then Err(ValueError)
      else Ok((arr[1], (ParseInt(arr[0]).value, ParseInt(arr[2]).value)))
    else
      if |arr| < 2 then Err(IndexError)
      else if ParseInt(arr[1]).None? then Err(ValueError)
      else if |arr| < 3 then Err(IndexError)
      else if ParseInt(arr[2]).None? then Err(ValueError)
      else Ok((arr[0], (ParseInt(arr[1]).value, ParseInt(arr[2]).value)))
  }

  /** One line read into the dict `acc` built so far. */
  function LoadLine(acc: Loaded, line: string, dtype: string, transposed: bool): Result<Loaded>
    requires acc.Dict?
  {
    if StartsWith(line, "%%") then Ok(acc)
    else if dtype == "drels" then
      var p := ParseRel(SplitWs(line));
      if p.Err? then Err(p.error)
      else
        var (id1, id2, f) := p.value;
        Ok(acc.(rels := acc.rels[(if transposed then (id2, id1) else (id1, id2)) := f]))
    else if IsWordsType(dtype) then
      var p := ParseWord(SplitWs(line), transposed);
      if p.Err? then Err(p.error)
      else Ok(acc.(words := acc.words[p.value.0 := p.value.1]))
    else Ok(False)
  }

  /** `load(dtype, transposed)` over the lines of the file. */
  function LoadSpec(lines: seq<string>, dtype: string, transposed: bool): Result<Loaded>
  {
    if lines == [] then Ok(EmptyDict)
    else
      var prev := LoadSpec(lines[..|lines| - 1], dtype, transposed);
      if prev.Ok? && prev.value.Dict? then LoadLine(prev.value, lines[|lines| - 1], dtype, transposed)
      else prev
  }

  lemma LoadSnoc(lines: seq<string>, line: string, dtype: string, transposed: bool)
    ensures var prev := LoadSpec(lines, dtype, transposed);
            LoadSpec(lines + [line], dtype, transposed) ==
              if prev.Ok? && prev.value.Dict? then LoadLine(prev.value, line, dtype, transposed) else prev
  {
    assert (lines + [line])[..|lines|] == lines;
  }

  /** An error or `False` ends the reading: later lines change nothing. */
  lemma {:induction false} LoadStops(lines: seq<string>, k: nat, dtype: string, transposed: bool)
    requires k <= |lines|
    requires var r := LoadSpec(lines[..k], dtype, transposed); !(r.Ok? && r.value.Dict?)
    ensures LoadSpec(lines, dtype, transposed) == LoadSpec(lines[..k], dtype, transposed)
    decreases |lines|
  {
    if k < |lines| {
      var init := lines[..|lines| - 1];
      assert init[..k] == lines[..k];
      LoadStops(init, k, dtype, transposed);
    } else {
      assert lines[..k] == lines;
    }
  }

  /** The lines not starting with `%%`. */
  function DropComments(lines: seq<string>): seq<string>
  {
    if lines == [] then []
    else
      var last := lines[|lines| - 1];
      DropComments(lines[..|lines| - 1]) + (if StartsWith(last, "%%") then [] else [last])
  }

  /** Every `%%` line is skipped, wherever it stands. */
  lemma {:induction false} LoadIgnoresComments(lines: seq<string>, dtype: string, transposed: bool)
    ensures LoadSpec(lines, dtype, transposed) == LoadSpec(DropComments(lines), dtype, transposed)
  {
    if lines != [] {
      var init := lines[..|lines| - 1];
      var last := lines[|lines| - 1];
      LoadIgnoresComments(init, dtype, transposed);
      if !StartsWith(last, "%%") {
        var kept := DropComments(init) + [last];
        assert kept[..|kept| - 1] == DropComments(init);
      } else {
        assert DropComments(lines) == DropComments(init);
      }
    }
  }

  /** For an unknown `dtype` the first line that is not a comment gives
      `False`; a file of comments alone gives the empty dict. */
  lemma {:induction false} LoadUnknownType(lines: seq<string>, dtype: string, transposed: bool)
    requires !KnownType(dtype)
    ensures LoadSpec(lines, dtype, transposed) == if DropComments(lines) == [] then Ok(EmptyDict) else Ok(False)
  {
    if lines != [] {
      LoadUnknownType(lines[..|lines| - 1], dtype, transposed);
    }
  }

  /** `(idw, idc) -> f` read as `(idc, idw) -> f`. */
  function Transpose(rels: map<RelKey, int>): map<RelKey, int>
  {
    map k | k in rels :: (k.1, k.0) := rels[k]
  }

  function TransposeLoaded(r: Result<Loaded>): Result<Loaded>
  {
    if r.Ok? && r.value.Dict? then Ok(r.value.(rels := Transpose(r.value.rels))) else r
  }

  lemma TransposeUpdate(m: map<RelKey, int>, id1: int, id2: int, f: int)
    ensures Transpose(m[(id1, id2) := f]) == Transpose(m)[(id2, id1) := f]
  {
  }

  /** Loading `drels` transposed swaps both ids of every key, and only that. */
  lemma {:induction false} LoadTransposedSwaps(lines: seq<string>)
    ensures LoadSpec(lines, "drels", true) == TransposeLoaded(LoadSpec(lines, "drels", false))
  {
    if lines != [] {
      var init := lines[..|lines| - 1];
      var line := lines[|lines| - 1];
      assert lines == init + [line];
      LoadTransposedSwaps(init);
      LoadSnoc(init, line, "drels", true);
      LoadSnoc(init, line, "drels", false);
      var prev := LoadSpec(init, "drels", false);
      if prev.Ok? && prev.value.Dict? {
        var p := ParseRel(SplitWs(line));
        if !StartsWith(line, "%%") && p.Ok? {
          var (id1, id2, f) := p.value;
          TransposeUpdate(prev.value.rels, id1, id2, f);
        }
      }
    }
  }

  // ---------------------------------------------------------------------------
  // Round trips.

  lemma DecimalLead(i: int)
    ensures IntToDecimal(i) != [] && IntToDecimal(i)[0] != '%'
  {
    if i >= 0 {
      assert IsAsciiDigit(NatToDecimal(i)[0]);
    } else {
      assert IntToDecimal(i)[0] == '-';
    }
  }

  /** Three tokens joined by spaces split back into them. */
  lemma SplitThree(a: string, b: string, c: string)
    requires IsToken(a) && IsToken(b) && IsToken(c)
    ensures SplitWs(Join([a, b, c], " ")) == [a, b, c]
    ensures Join([a, b, c], " ") == a + " " + b + " " + c
  {
    SplitWsJoin([a, b, c]);
    assert [a, b, c][1..] == [b, c];
    assert [b, c][1..] == [c];
    assert Join([b, c], " ") == b + " " + c;
    assert Join([a, b, c], " ") == a + " " + (b + " " + c);
  }

  /** A line starting with a token that does not start with `%%`, followed
      by a space, does not start with `%%`. */
  lemma TokenLineNoComment(a: string, rest: string)
    requires IsToken(a) && !StartsWith(a, "%%")
    ensures !StartsWith(a + " " + rest, "%%")
  {
    var s := a + " " + rest;
    if |a| >= 2 {
      assert s[..2] == a[..2];
    } else {
      assert s[1] == ' ';
    }
  }

  lemma DecimalToken(i: int)
    ensures IsToken(IntToDecimal(i)) && !StartsWith(IntToDecimal(i), "%%")
    ensures ParseInt(IntToDecimal(i)) == Some(i)
  {
    ParseIntDecimal(i);
    DecimalLead(i);
  }

  /** A saved `drels` line parses back into its three numbers. */
  lemma RelLineParses(key: RelKey, f: int, transposed: bool)
    ensures !StartsWith(RelLine(key, f, transposed), "%%")
    ensures ParseRel(SplitWs(RelLine(key, f, transposed))) ==
            Ok(if transposed then (key.1, key.0, f) else (key.0, key.1, f))
  {
    if transposed {
      FieldsParse(key.1, key.0, f);
    } else {
      FieldsParse(key.0, key.1, f);
    }
  }

  /** `'%d %d %d' % (x, y, z)` parses back into `(x, y, z)`. */
  lemma FieldsParse(x: int, y: int, z: int)
    ensures var line := Join([IntToDecimal(x), IntToDecimal(y), IntToDecimal(z)], " ");
            !StartsWith(line, "%%") && ParseRel(SplitWs(line)) == Ok((x, y, z))
  {
    var a, b, c := IntToDecimal(x), IntToDecimal(y), IntToDecimal(z);
    DecimalToken(x);
    DecimalToken(y);
    DecimalToken(z);
    SplitThree(a, b, c);
    TokenLineNoComment(a, b + " " + c);
    assert a + " " + b + " " + c == a + " " + (b + " " + c);
  }

  /** A saved `drels` line is read back as its entry. */
  lemma RelLineLoads(acc: Loaded, key: RelKey, f: int, transposed: bool)
    requires acc.Dict?
    ensures LoadLine(acc, RelLine(key, f, transposed), "drels", transposed) == Ok(acc.(rels := acc.rels[key := f]))
  {
    RelLineParses(key, f, transposed);
  }

  /** `'%d %s %d' % (x, w, y)` reads back as `w` with entry `(x, y)`. */
  lemma WordFieldsTransposed(x: int, w: string, y: int)
    requires IsToken(w)
    ensures var line := WordLine(w, (x, y), true);
            !StartsWith(line, "%%") && ParseWord(SplitWs(line), true) == Ok((w, (x, y)))
  {
    var a, c := IntToDecimal(x), IntToDecimal(y);
    DecimalToken(x);
    DecimalToken(y);
    SplitThree(a, w, c);
    TokenLineNoComment(a, w + " " + c);
    assert a + " " + w + " " + c == a + " " + (w + " " + c);
  }

  /** `'%s %d %d' % (w, x, y)` reads back as `w` with entry `(x, y)`. */
  lemma WordFieldsPlain(w: string, x: int, y: int)
    requires IsToken(w) && !StartsWith(w, "%%")
    ensures var line := WordLine(w, (x, y), false);
            !StartsWith(line, "%%") && ParseWord(SplitWs(line), false) == Ok((w, (x, y)))
  {
    var a, c := IntToDecimal(x), IntToDecimal(y);
    DecimalToken(x);
    DecimalToken(y);
    SplitThree(w, a, c);
    TokenLineNoComment(w, a + " " + c);
    assert w + " " + a + " " + c == w + " " + (a + " " + c);
  }

  /** A saved word line is read back as its entry, for a word that is a
      whitespace-free token and, untransposed, does not start with `%%`. */
  lemma WordLineLoads(acc: Loaded, w: string, e: Entry, dtype: string, transposed: bool)
    requires acc.Dict? && IsWordsType(dtype)
    requires IsToken(w) && (!transposed ==> !StartsWith(w, "%%"))
    ensures LoadLine(acc, WordLine(w, e, transposed), dtype, transposed) == Ok(acc.(words := acc.words[w := e]))
  {
    if transposed {
      WordFieldsTransposed(e.0, w, e.1);
    } else {
      WordFieldsPlain(w, e.0, e.1);
    }
  }

  /** The entries of `d` whose keys are listed in `ks`. */
  function Restrict<K, V>(d: map<K, V>, ks: seq<K>): map<K, V>
  {
    map x | x in d && x in ks :: d[x]
  }

  lemma RestrictSnoc<K, V>(d: map<K, V>, ks: seq<K>, key: K)
    requires key in d
    ensures Restrict(d, ks + [key]) == Restrict(d, ks)[key := d[key]]
  {
    forall x ensures x in ks + [key] <==> x in ks || x == key {
      if x in ks + [key] && x != key {
        var i :| 0 <= i < |ks + [key]| && (ks + [key])[i] == x;
        assert ks[i] == x;
      }
    }
  }

  lemma RestrictNone<K, V>(d: map<K, V>)
    ensures Restrict(d, []) == map[]
  {
  }

  /** Restricted to a listing of all its keys, a map is itself. */
  lemma RestrictAll<K, V>(d: map<K, V>, ks: seq<K>)
    requires forall x :: x in d ==> x in ks
    ensures Restrict(d, ks) == d
  {
  }

  /** The header alone loads as the empty dict. */
  lemma LoadHeader(h: string, dtype: string, transposed: bool)
    requires StartsWith(h, "%%")
    ensures LoadSpec([h], dtype, transposed) == Ok(EmptyDict)
  {
    LoadSnoc([], h, dtype, transposed);
    assert [] + [h] == [h];
  }

  /** One more saved `drels` line adds its entry. */
  lemma LoadRelStep(d: map<RelKey, int>, prefix: seq<RelKey>, key: RelKey, transposed: bool)
    requires key in d && forall i :: 0 <= i < |prefix| ==> prefix[i] in d
    requires LoadSpec([RelsHeader(transposed)] + RelLines(d, prefix, transposed), "drels", transposed)
             == Ok(Dict(Restrict(d, prefix), map[]))
    ensures LoadSpec([RelsHeader(transposed)] + RelLines(d, prefix + [key], transposed), "drels", transposed)
            == Ok(Dict(Restrict(d, prefix + [key]), map[]))
  {
    var line := RelLine(key, d[key], transposed);
    var before := [RelsHeader(transposed)] + RelLines(d, prefix, transposed);
    assert (prefix + [key])[..|prefix|] == prefix;
    assert [RelsHeader(transposed)] + RelLines(d, prefix + [key], transposed) == before + [line];
    LoadSnoc(before, line, "drels", transposed);
    RelLineLoads(Dict(Restrict(d, prefix), map[]), key, d[key], transposed);
    RestrictSnoc(d, prefix, key);
  }

  lemma {:induction false} LoadRelLines(d: map<RelKey, int>, order: seq<RelKey>, transposed: bool, k: nat)
    requires k <= |order| && forall i :: 0 <= i < |order| ==> order[i] in d
    ensures LoadSpec([RelsHeader(transposed)] + RelLines(d, order[..k], transposed), "drels", transposed)
            == Ok(Dict(Restrict(d, order[..k]), map[]))
  {
    var h := RelsHeader(transposed);
    if k == 0 {
      assert [h] + RelLines(d, order[..0], transposed) == [h];
      LoadHeader(h, "drels", transposed);
      RestrictNone(d);
    } else {
      LoadRelLines(d, order, transposed, k - 1);
      assert order[..k] == order[..k - 1] + [order[k - 1]];
      LoadRelStep(d, order[..k - 1], order[k - 1], transposed);
    }
  }

  /** One more saved word line adds its entry. */
  lemma LoadWordStep(d: map<string, Entry>, prefix: seq<string>, w: string, dtype: string, transposed: bool)
    requires w in d && forall i :: 0 <= i < |prefix| ==> prefix[i] in d
    requires IsWordsType(dtype) && IsToken(w) && (!transposed ==> !StartsWith(w, "%%"))
    requires LoadSpec([WordsHeader(transposed)] + WordLines(d, prefix, transposed), dtype, transposed)
             == Ok(Dict(map[], Restrict(d, prefix)))
    ensures LoadSpec([WordsHeader(transposed)] + WordLines(d, prefix + [w], transposed), dtype, transposed)
            == Ok(Dict(map[], Restrict(d, prefix + [w])))
  {
    var line := WordLine(w, d[w], transposed);
    var before := [WordsHeader(transposed)] + WordLines(d, prefix, transposed);
    assert (prefix + [w])[..|prefix|] == prefix;
    assert [WordsHeader(transposed)] + WordLines(d, prefix + [w], transposed) == before + [line];
    LoadSnoc(before, line, dtype, transposed);
    WordLineLoads(Dict(map[], Restrict(d, prefix)), w, d[w], dtype, transposed);
    RestrictSnoc(d, prefix, w);
  }

  lemma {:induction false} LoadWordLines(d: map<string, Entry>, order: seq<string>, dtype: string, transposed: bool, k: nat)
    requires k <= |order| && forall i :: 0 <= i < |order| ==> order[i] in d
    requires IsWordsType(dtype)
    requires forall w :: w in d ==> IsToken(w) && (!transposed ==> !StartsWith(w, "%%"))
    ensures LoadSpec([WordsHeader(transposed)] + WordLines(d, order[..k], transposed), dtype, transposed)
            == Ok(Dict(map[], Restrict(d, order[..k])))
  {
    var h := WordsHeader(transposed);
    if k == 0 {
      assert [h] + WordLines(d, order[..0], transposed) == [h];
      LoadHeader(h, dtype, transposed);
      RestrictNone(d);
    } else {
      LoadWordLines(d, order, dtype, transposed, k - 1);
      assert order[..k] == order[..k - 1] + [order[k - 1]];
      LoadWordStep(d, order[..k - 1], order[k - 1], dtype, transposed);
    }
  }

  /** `load(save(d))` is `d` for `drels`, in either orientation. */
  lemma LoadSaveRels(d: map<RelKey, int>, order: seq<RelKey>, transposed: bool)
    requires Enumerates(order, d.Keys)
    ensures LoadSpec(SavedLines(RelsDict(d, order), "drels", transposed), "drels", transposed) == Ok(Dict(d, map[]))
  {
    LoadRelLines(d, order, transposed, |order|);
    assert order[..|order|] == order;
    RestrictAll(d, order);
  }

  /** `load(save(d))` is `d` for `dwords` and `dctxs`, in either orientation,
      when every word is a whitespace-free token and, untransposed, none
      starts with `%%`. */
  lemma LoadSaveWords(d: map<string, Entry>, order: seq<string>, dtype: string, transposed: bool)
    requires Enumerates(order, d.Keys) && IsWordsType(dtype)
    requires forall w :: w in d ==> IsToken(w) && (!transposed ==> !StartsWith(w, "%%"))
    ensures LoadSpec(SavedLines(WordsDict(d, order), dtype, transposed), dtype, transposed) == Ok(Dict(map[], d))
  {
    LoadWordLines(d, order, dtype, transposed, |order|);
    assert order[..|order|] == order;
    RestrictAll(d, order);
  }

  /** A word starting with `%%` is lost on the untransposed round trip: its
      line is read as a comment. */
  lemma CommentWordLost(w: string, e: Entry, dtype: string)
    requires StartsWith(w, "%%") && IsWordsType(dtype)
    ensures LoadSpec(SavedLines(WordsDict(map[w := e], [w]), dtype, false), dtype, false) == Ok(EmptyDict)
  {
    var h := WordsHeader(false);
    var line := WordLine(w, e, false);
    assert [w][..0] == [];
    assert WordLines(map[w := e], [w], false) == [] + [line] == [line];
    assert line == w + " " + Join([IntToDecimal(e.0), IntToDecimal(e.1)], " ");
    assert line[..2] == w[..2];
    LoadHeader(h, dtype, false);
    LoadSnoc([h], line, dtype, false);
  }

  // ---------------------------------------------------------------------------
  // The class.

  /** `PlainText(fname)`. */
  class PlainText {
    const fname: string

    constructor (fname: string)
      ensures this.fname == fname
    {
      this.fname := fname;
    }

    /** `save(dic, dtype, transposed)`: the file written and its lines; `True`,
        or the `TypeError` that formatting the error message with `%d` raises
        for an unknown `dtype`. */
    method Save(dic: Stored, dtype: string, transposed: bool) returns (path: string, lines: seq<string>, r: Result<bool>)
      requires SaveArgs(dic, dtype)
      ensures path == StoragePath(fname, dtype)
      ensures lines == SavedLines(dic, dtype, transposed)
      ensures KnownType(dtype) ==> r == Ok(true)
      ensures !KnownType(dtype) ==> r == Err(TypeError)
    {
      path := StoragePath(fname, dtype);
      lines := [];
      if dtype == "drels" {
        lines := lines + [RelsHeader(transposed)];
        var d, order := dic.rels, dic.relOrder;
        for k := 0 to |order|
          invariant lines == [RelsHeader(transposed)] + RelLines(d, order[..k], transposed)
        {
          var key := order[k];
          var f := d[key];
          lines := lines + [RelLine(key, f, transposed)];
          assert order[..k + 1][..k] == order[..k];
        }
        assert order[..|order|] == order;
      } else if dtype == "dwords" || dtype == "dctxs" {
        lines := lines + [WordsHeader(transposed)];
        var d, order := dic.words, dic.wordOrder;
        for k := 0 to |order|
          invariant lines == [WordsHeader(transposed)] + WordLines(d, order[..k], transposed)
        {
          var key := order[k];
          lines := lines + [WordLine(key, d[key], transposed)];
          assert order[..k + 1][..k] == order[..k];
        }
        assert order[..|order|] == order;
      } else {
        return path, lines, Err(TypeError);
      }
      r := Ok(true);
    }

    /** `load(dtype, transposed)` of the file whose lines are `lines`. */
    method Load(lines: seq<string>, dtype: string, transposed: bool) returns (path: string, r: Result<Loaded>)
      ensures path == StoragePath(fname, dtype)
      ensures r == LoadSpec(lines, dtype, transposed)
    {
      path := StoragePath(fname, dtype);
      var rels: map<RelKey, int> := map[];
      var words: map<string, Entry> := map[];
      for k := 0 to |lines|
        invariant LoadSpec(lines[..k], dtype, transposed) == Ok(Dict(rels, words))
      {
        var line := lines[k];
        assert lines[..k + 1] == lines[..k] + [line];
        LoadSnoc(lines[..k], line, dtype, transposed);
        if !StartsWith(line, "%%") {
          var arr := SplitWs(line);
          if dtype == "drels" {
            var p := ParseRel(arr);
            if p.Err? {
              LoadStops(lines, k + 1, dtype, transposed);
              return path, Err(p.error);
            }
            var (id1, id2, f) := p.value;
            if transposed {
              rels := rels[(id2, id1) := f];
            } else {
              rels := rels[(id1, id2) := f];
            }
          } else if dtype == "dwords" || dtype == "dctxs" {
            var p := ParseWord(arr, transposed);
            if p.Err? {
              LoadStops(lines, k + 1, dtype, transposed);
              return path, Err(p.error);
            }
            var (w, e) := p.value;
            words := words[w := e];
          } else {
            LoadStops(lines, k + 1, dtype, transposed);
            return path, Ok(False);
          }
        }
      }
      assert lines[..|lines|] == lines;
      r := Ok(Dict(rels, words));
    }
  }
}
