// The OBJ model loader of models/objfile.c: the growable array, and the bookkeeping of
// obj_read (1-based element indices, face corner references, material selection, the
// material names of an .mtl library) and of obj_write (renumbering, material switches,
// the text of a face line). Coordinates, face normals and material colours are floating
// point and are not part of this model; a vector keeps only its `index`.
module ObjFile {
  import opened Bytes

  // ---------------------------------------------------------------------
  // array_new / array_append

  /** The capacity `array_append` leaves behind when it is called with `count` items stored. */
  function Grown(capacity: int, count: int): int
  {
    if count >= capacity then (if capacity < 16 then 16 else capacity * 2) else capacity
  }

  /** The capacity of an array after `n` appends from `array_new`. */
  function CapacityAfter(n: nat): int
  {
    if n == 0 then 0 else Grown(CapacityAfter(n - 1), n - 1)
  }

  /** There is always room for the stored items, the capacity is a multiple of 16, and it is
      never more than twice what is needed (16 for the first sixteen). */
  lemma {:induction false} CapacityBounds(n: nat)
    ensures n <= CapacityAfter(n)
    ensures CapacityAfter(n) % 16 == 0
    ensures n > 0 ==> CapacityAfter(n) <= Max(16, 2 * n - 2)
  {
    if n > 0 {
      CapacityBounds(n - 1);
      var c := CapacityAfter(n - 1);
      var g := Grown(c, n - 1);
      assert CapacityAfter(n) == g;
      if n - 1 < c {
        assert g == c;
      } else if c < 16 {
        assert c == 0 && g == 16;
      } else {
        assert c == n - 1 && g == 2 * c;
        DoubleOfMultiple(c);
      }
    }
  }

  lemma DoubleOfMultiple(c: int)
    requires c % 16 == 0
    ensures (2 * c) % 16 == 0
  {
    assert 2 * c == 16 * (2 * (c / 16));
  }

  /** `array`: `count` items stored in room for `capacity` of them, each `size` bytes;
      `items` are the stored items (the memory past them is not modelled). */
  class Growable<T> {
    var capacity: int
    var count: int
    var size: int
    var items: seq<T>

    ghost predicate Valid()
      reads this
    {
      |items| == count && capacity == CapacityAfter(count)
    }

    /** `array_new(size)`: empty, with no storage. */
    constructor (size: int)
      ensures Valid() && capacity == 0 && count == 0 && items == [] && this.size == size
    {
      capacity, count, items := 0, 0, [];
      this.size := size;
    }

    /** `array_append(a, item)`: grows a full array, then stores the item after the others. */
    method Append(item: T)
      requires Valid()
      modifies this
      ensures Valid()
      ensures items == old(items) + [item] && count == old(count) + 1 && size == old(size)
      ensures capacity == Grown(old(capacity), old(count))
    {
      if count >= capacity {
        capacity := if capacity < 16 then 16 else capacity * 2;
      }
      items := items + [item];
      count := count + 1;
    }

    /** An assignment to the stored item at position `i`. */
    method Set(i: nat, item: T)
      requires Valid() && i < count
      modifies this
      ensures Valid() && count == old(count) && capacity == old(capacity) && size == old(size)
      ensures items == old(items)[i := item]
    {
      items := items[i := item];
    }
  }

  // ---------------------------------------------------------------------
  // strsep and the command switch

  const SPACES: set<char> := {' ', '\t', '\r', '\n'}
  const SLASH: set<char> := {'/'}

  /** The position of the first character of `s` in `delims`, searching from `i`. */
  function FirstIn(s: string, delims: set<char>, i: nat := 0): (r: Option<nat>)
    requires i <= |s|
    ensures r.Some? ==> i <= r.value < |s|
    decreases |s| - i
  {
    if i == |s| then None
    else if s[i] in delims then Some(i)
    else FirstIn(s, delims, i + 1)
  }

  lemma {:induction false} FirstInMeaning(s: string, delims: set<char>, i: nat := 0)
    requires i <= |s|
    ensures FirstIn(s, delims, i).None? <==> forall k :: i <= k < |s| ==> s[k] !in delims
    ensures FirstIn(s, delims, i).Some? ==> (
      var k := FirstIn(s, delims, i).value;
      s[k] in delims && forall j :: i <= j < k ==> s[j] !in delims)
    decreases |s| - i
  {
    if i < |s| && s[i] !in delims {
      FirstInMeaning(s, delims, i + 1);
    }
  }

  /** What `strsep(&s, delims)` returns and what it leaves in `s`. */
  datatype Sep = Sep(token: Option<string>, rest: Option<string>)

  /** `strsep`: the text up to the first delimiter, and the text after it; the remainder is
      NULL when there is no delimiter, and both are NULL when `s` already was. */
  function Strsep(s: Option<string>, delims: set<char>): (r: Sep)
    ensures s.None? ==> r == Sep(None, None)
    ensures s.Some? ==> r.token.Some?
  {
    match s
    case None => Sep(None, None)
    case Some(t) =>
      match FirstIn(t, delims)
      case None => Sep(Some(t), None)
      case Some(k) => Sep(Some(t[..k]), Some(t[k + 1..]))
  }

  predicate Avoids(s: string, delims: set<char>)
  {
    forall k :: 0 <= k < |s| ==> s[k] !in delims
  }

  /** `strsep` splits at a delimiter that follows delimiter-free text, and the token and the
      remainder put back together with that delimiter give the text again. */
  lemma StrsepSplits(a: string, c: char, b: string, delims: set<char>)
    requires Avoids(a, delims) && c in delims
    ensures Strsep(Some(a + [c] + b), delims) == Sep(Some(a), Some(b))
  {
    var s := a + [c] + b;
    FirstInMeaning(s, delims);
    assert s[|a|] == c;
    var k := FirstIn(s, delims).value;
    assert k == |a|;
    assert s[..k] == a && s[k + 1..] == b;
  }

  lemma StrsepWhole(a: string, delims: set<char>)
    requires Avoids(a, delims)
    ensures Strsep(Some(a), delims) == Sep(Some(a), None)
  {
    FirstInMeaning(a, delims);
  }

  /** `strsep` loses nothing: token, delimiter and remainder make up the text. */
  lemma StrsepRejoins(s: string, delims: set<char>)
    ensures Strsep(Some(s), delims).rest.None? ==> (
      Strsep(Some(s), delims).token == Some(s) && Avoids(s, delims))
    ensures Strsep(Some(s), delims).rest.Some? ==> (
      var r := Strsep(Some(s), delims);
      Avoids(r.token.value, delims) && |r.token.value| < |s| && s[|r.token.value|] in delims &&
      s == r.token.value + [s[|r.token.value|]] + r.rest.value)
  {
    FirstInMeaning(s, delims);
    if FirstIn(s, delims).Some? {
      var k := FirstIn(s, delims).value;
      assert s == s[..k] + [s[k]] + s[k + 1..];
    }
  }

  /** The two characters the `command[0] + command[1]*256` switches look at, the second being
      the terminating NUL of a one-character command; None for an empty command, whose
      first character is the NUL and which matches no case. */
  function Key(command: string): Option<(char, char)>
  {
    if |command| == 0 then None
    else Some((command[0], if |command| >= 2 then command[1] else '\0'))
  }

  datatype Command = VertexCmd | TextureCmd | NormalCmd | FaceCmd | MtlLibCmd | MaterialCmd | OtherCmd

  /** The case of obj_read's switch that a command selects: `v`, `vt`, `vn`, `f`, `mt...`,
      and `g` or `us...`, which share a branch. */
  function CommandOf(command: string): Command
  {
    match Key(command)
    case None => OtherCmd
    case Some(k) =>
      if k == ('v', '\0') then VertexCmd
      else if k == ('v', 't') then TextureCmd
      else if k == ('v', 'n') then NormalCmd
      else if k == ('f', '\0') then FaceCmd
      else if k == ('m', 't') then MtlLibCmd
      else if k == ('g', '\0') || k == ('u', 's') then MaterialCmd
      else OtherCmd
  }

  /** The keywords select their branches, but only two characters are compared: any command
      that starts like `vt`, `vn`, `mt` or `us` selects that branch too. */
  lemma CommandPrefix(command: string)
    ensures CommandOf("v") == VertexCmd && CommandOf("vt") == TextureCmd && CommandOf("vn") == NormalCmd
    ensures CommandOf("f") == FaceCmd && CommandOf("mtllib") == MtlLibCmd
    ensures CommandOf("g") == MaterialCmd && CommandOf("usemtl") == MaterialCmd
    ensures |command| >= 2 ==> CommandOf(command) == CommandOf(command[..2])
  {
  }

  // ---------------------------------------------------------------------
  // obj_read

  /** A vector; its coordinates are not modelled. */
  datatype Vec = Vec(index: int)

  /** One corner of a face: positions in the vertex, texture and normal arrays, None for a
      NULL pointer. A position can lie outside its array: obj_read does not check it. */
  datatype Corner = Corner(v: Option<int>, vt: Option<int>, vn: Option<int>)

  /** A face: its corners and the position of its material, None for NULL. */
  datatype Face = Face(corners: seq<Corner>, m: Option<nat>)

  /** `x ? items + (x - 1) : NULL`: a number read from a corner token names element `x - 1`,
      and 0 names none. */
  function RefOf(x: int): (r: Option<int>)
    ensures r.None? <==> x == 0
    ensures r.Some? ==> r.value == x - 1
  {
    if x == 0 then None else Some(x - 1)
  }

  /** The numbers of the next `k` slash-separated fields of a corner token: each field is
      cut with `strsep` and converted with `atoi`, and once the token is used up (`arg` is
      NULL) a missing field reads as 0. */
  function SlashFields(arg: Option<string>, k: nat): (r: seq<int>)
    ensures |r| == k
    decreases k
  {
    if k == 0 then []
    else if arg.None? then [0] + SlashFields(None, k - 1)
    else
      var s := Strsep(arg, SLASH);
      [AtoI(s.token.value)] + SlashFields(s.rest, k - 1)
  }

  /** One corner token `v/vt/vn`. None when the token itself is NULL, which `atoi` then
      dereferences. */
  function ParseCorner(arg: Option<string>): Option<Corner>
  {
    if arg.None? then None
    else
      var f := SlashFields(arg, FIELDS);
      Some(Corner(RefOf(f[0]), RefOf(f[1]), RefOf(f[2])))
  }

  /** The corners of a face, and the fields of a corner token. */
  const CORNERS: nat := 3
  const FIELDS: nat := 3

  /** `n` corner tokens cut from `next` at white space, or None if one is NULL. */
  function ParseCorners(next: Option<string>, n: nat): (r: Option<seq<Corner>>)
    ensures r.Some? ==> |r.value| == n
    decreases n
  {
    if n == 0 then Some([])
    else
      var s := Strsep(next, SPACES);
      match ParseCorner(s.token)
      case None => None
      case Some(c) =>
        match ParseCorners(s.rest, n - 1)
        case None => None
        case Some(cs) => Some([c] + cs)
  }

  /** The index of the first material called `name`. */
  function Lookup(names: seq<string>, name: string): (r: Option<nat>)
    ensures r.Some? ==> r.value < |names|
  {
    if names == [] then None
    else if names[0] == name then Some(0)
    else match Lookup(names[1..], name)
      case None => None
      case Some(i) => Some(i + 1)
  }

  /** The material selected is the first with the name, and none is selected exactly when no
      material has it. */
  lemma {:induction false} LookupMeaning(names: seq<string>, name: string)
    ensures Lookup(names, name).None? <==> name !in names
    ensures Lookup(names, name).Some? ==> (
      var i := Lookup(names, name).value;
      names[i] == name && name !in names[..i])
  {
    if names != [] && names[0] != name {
      LookupMeaning(names[1..], name);
      assert names == [names[0]] + names[1..];
      if Lookup(names, name).Some? {
        var i := Lookup(names, name).value;
        assert names[..i] == [names[0]] + names[1..][..i - 1];
      }
    }
  }

  /** The loop state of obj_read: the object's fields as values, and the current material. */
  datatype ReadState = ReadState(mtllib: Option<string>, mtls: seq<string>, vs: seq<Vec>, vts: seq<Vec>,
                                 vns: seq<Vec>, fs: seq<Face>, m: Option<nat>)

  const Empty := ReadState(None, [], [], [], [], [], None)

  /** The lines of an .mtl library, by the name that follows `mtllib`; None when it cannot be
      opened, a case `mtllib_read` does not check. */
  type Library = string -> Option<seq<string>>

  /** The effect of one line on the state, or None when the line makes obj_read pass NULL to
      a library function (`sscanf`, `atoi`, `strdup`, `strcmp`, `fgets`). */
  function ReadStep(st: ReadState, line: string, library: Library): Option<ReadState>
  {
    var s := Strsep(Some(line), SPACES);
    var next := s.rest;
    match CommandOf(s.token.value)
    case VertexCmd => if next.None? then None else Some(st.(vs := st.vs + [Vec(|st.vs| + 1)]))
    case TextureCmd => if next.None? then None else Some(st.(vts := st.vts + [Vec(|st.vts| + 1)]))
    case NormalCmd => if next.None? then None else Some(st.(vns := st.vns + [Vec(|st.vns| + 1)]))
    case FaceCmd => FaceStep(st, next)
    case MtlLibCmd => MtlLibStep(st, next, library)
    case MaterialCmd => MaterialStep(st, next)
    case OtherCmd => Some(st)
  }

  /** An `f` line appends a face of three corners with the current material. */
  function FaceStep(st: ReadState, next: Option<string>): Option<ReadState>
  {
    match ParseCorners(next, CORNERS)
    case None => None
    case Some(cs) => Some(st.(fs := st.fs + [Face(cs, st.m)]))
  }

  /** An `mtllib` line keeps the library name and appends the library's materials. */
  function MtlLibStep(st: ReadState, next: Option<string>, library: Library): Option<ReadState>
  {
    var arg := Strsep(next, SPACES).token;
    if arg.None? || library(arg.value).None? then None
    else
      match LibraryNames(library(arg.value).value)
      case None => None
      case Some(names) => Some(st.(mtllib := arg, mtls := st.mtls + names))
  }

  /** A `g` or `usemtl` line selects the first material of the name, or none; with no name
      it compares NULL with the first material's name, unless there is none. */
  function MaterialStep(st: ReadState, next: Option<string>): Option<ReadState>
  {
    var arg := Strsep(next, SPACES).token;
    if arg.None? then (if |st.mtls| == 0 then Some(st.(m := None)) else None)
    else Some(st.(m := Lookup(st.mtls, arg.value)))
  }

  /** The state after the lines `fgets` returns, or None once a line is undefined. */
  function Run(lines: seq<string>, library: Library): Option<ReadState>
  {
    if lines == [] then Some(Empty)
    else match Run(lines[..|lines| - 1], library)
      case None => None
      case Some(st) => ReadStep(st, lines[|lines| - 1], library)
  }

  lemma RunStep(lines: seq<string>, k: nat, library: Library)
    requires k < |lines|
    ensures Run(lines[..k + 1], library) ==
            match Run(lines[..k], library) case None => None case Some(st) => ReadStep(st, lines[k], library)
  {
    assert lines[..k + 1][..k] == lines[..k];
  }

  /** Element `i` of an array of vectors has index `i + 1`. */
  predicate Numbered(vs: seq<Vec>)
  {
    forall i :: 0 <= i < |vs| ==> vs[i].index == i + 1
  }

  /** What obj_read keeps true: 1-based indices in every vector array, three corners per
      face, and materials that name entries of the material array. */
  predicate WellFormed(st: ReadState)
  {
    Numbered(st.vs) && Numbered(st.vts) && Numbered(st.vns) &&
    (st.m.Some? ==> st.m.value < |st.mtls|) &&
    forall i :: 0 <= i < |st.fs| ==> |st.fs[i].corners| == 3 && (st.fs[i].m.Some? ==> st.fs[i].m.value < |st.mtls|)
  }

  lemma NumberedAppend(vs: seq<Vec>)
    requires Numbered(vs)
    ensures Numbered(vs + [Vec(|vs| + 1)])
  {
  }

  lemma ReadStepWellFormed(st: ReadState, line: string, library: Library)
    requires WellFormed(st) && ReadStep(st, line, library).Some?
    ensures WellFormed(ReadStep(st, line, library).value)
  {
    var st' := ReadStep(st, line, library).value;
    var s := Strsep(Some(line), SPACES);
    match CommandOf(s.token.value)
    case VertexCmd => NumberedAppend(st.vs);
    case TextureCmd => NumberedAppend(st.vts);
    case NormalCmd => NumberedAppend(st.vns);
    case FaceCmd =>
      var cs := ParseCorners(s.rest, CORNERS).value;
      assert st' == st.(fs := st.fs + [Face(cs, st.m)]);
      FaceKeepsWellFormed(st, cs);
    case MtlLibCmd =>
      var names := LibraryNames(library(Strsep(s.rest, SPACES).token.value).value).value;
      assert st' == st.(mtllib := Strsep(s.rest, SPACES).token, mtls := st.mtls + names);
      MaterialsKeepWellFormed(st, Strsep(s.rest, SPACES).token, names);
    case MaterialCmd =>
    case OtherCmd =>
  }

  lemma FaceKeepsWellFormed(st: ReadState, cs: seq<Corner>)
    requires WellFormed(st) && |cs| == 3
    ensures WellFormed(st.(fs := st.fs + [Face(cs, st.m)]))
  {
    var fs := st.fs + [Face(cs, st.m)];
    assert forall i :: 0 <= i < |st.fs| ==> fs[i] == st.fs[i];
  }

  lemma MaterialsKeepWellFormed(st: ReadState, lib: Option<string>, names: seq<string>)
    requires WellFormed(st)
    ensures WellFormed(st.(mtllib := lib, mtls := st.mtls + names))
  {
  }

  /** Every `v`, `vt` and `vn` line gets its 1-based position in its array as its index,
      every face has three corners, and every material pointer points into the array. */
  lemma {:induction false} RunWellFormed(lines: seq<string>, library: Library)
    ensures Run(lines, library).Some? ==> WellFormed(Run(lines, library).value)
  {
    if lines != [] {
      RunWellFormed(lines[..|lines| - 1], library);
      if Run(lines[..|lines| - 1], library).Some? && Run(lines, library).Some? {
        ReadStepWellFormed(Run(lines[..|lines| - 1], library).value, lines[|lines| - 1], library);
      }
    }
  }

  // ---------------------------------------------------------------------
  // mtllib_read: only the material names

  /** The names found so far and the name of the material being read. */
  datatype LibState = LibState(names: seq<string>, current: Option<string>)

  function Pending(current: Option<string>): seq<string>
  {
    if current.Some? then [current.value] else []
  }

  /** One line of an .mtl file: `newmtl name` stores the material being read and starts the
      next; None when the name is NULL (`strdup(NULL)`) or a colour or map line reads NULL.
      Other lines set colours only. */
  function LibStep(ls: LibState, line: string): Option<LibState>
  {
    var s := Strsep(Some(line), SPACES);
    if ReadsNull(s) then None
    else if Key(s.token.value) != Some(('n', 'e')) then Some(ls)
    else
      var name := Strsep(s.rest, SPACES).token;
      if name.None? then None else Some(LibState(ls.names + Pending(ls.current), name))
  }

  /** A `Ka`, `Kd`, `Ks`, `d`, `Tr` or `Ns` line, or a `map_Ka`, `map_Kd` or `map_Ks` line,
      with no delimiter after its command (a last line without a newline): `next` is NULL,
      and the branch hands it to `sscanf`, or its `strsep` result to `strdup`. */
  predicate ReadsNull(s: Sep)
    requires s.token.Some?
  {
    s.rest.None? &&
    (Key(s.token.value) in {Some(('K', 'a')), Some(('K', 'd')), Some(('K', 's')), Some(('T', 'r')), Some(('N', 's')), Some(('d', '\0'))}
     || s.token.value in {"map_Ka", "map_Kd", "map_Ks"})
  }

  function LibRun(lines: seq<string>): Option<LibState>
  {
    if lines == [] then Some(LibState([], None))
    else match LibRun(lines[..|lines| - 1])
      case None => None
      case Some(ls) => LibStep(ls, lines[|lines| - 1])
  }

  /** A bare `Kd` as the last line, without its newline, makes the whole library undefined;
      the same line with its newline sets a colour and changes nothing. */
  lemma BareColourLine(lines: seq<string>, ls: LibState)
    ensures LibraryNames(lines + ["Kd"]).None?
    ensures LibStep(ls, "Kd\n") == Some(ls)
  {
    assert (lines + ["Kd"])[..|lines|] == lines;
    assert FirstIn("Kd", SPACES) == None by {
      assert FirstIn("Kd", SPACES, 2) == None;
    }
    assert FirstIn("Kd\n", SPACES) == Some(2) by {
      assert FirstIn("Kd\n", SPACES, 2) == Some(2);
    }
  }

  lemma {:induction false} LibStaysUndefined(lines: seq<string>, k: nat)
    requires k <= |lines| && LibRun(lines[..k]).None?
    ensures LibRun(lines).None?
    decreases |lines| - k
  {
    if k < |lines| {
      assert lines[..k + 1][..k] == lines[..k];
      LibStaysUndefined(lines, k + 1);
    } else {
      assert lines[..k] == lines;
    }
  }

  /** The names of the materials `mtllib_read` appends, in file order. */
  function LibraryNames(lines: seq<string>): Option<seq<string>>
  {
    match LibRun(lines)
    case None => None
    case Some(ls) => Some(ls.names + Pending(ls.current))
  }

  predicate IsNewMtl(line: string)
  {
    Key(Strsep(Some(line), SPACES).token.value) == Some(('n', 'e'))
  }

  function CountNewMtl(lines: seq<string>): nat
  {
    if lines == [] then 0 else CountNewMtl(lines[..|lines| - 1]) + (if IsNewMtl(lines[|lines| - 1]) then 1 else 0)
  }

  /** A library contributes one material per `newmtl` line. */
  lemma {:induction false} LibraryCount(lines: seq<string>)
    ensures LibRun(lines).Some? ==> (
      |LibRun(lines).value.names| + |Pending(LibRun(lines).value.current)| == CountNewMtl(lines))
    ensures LibraryNames(lines).Some? ==> |LibraryNames(lines).value| == CountNewMtl(lines)
  {
    if lines != [] {
      LibraryCount(lines[..|lines| - 1]);
    }
  }

  // ---------------------------------------------------------------------
  // The object

  /** `obj`: the library name and the five arrays (materials as their names only). */
  class Obj {
    var mtllib: Option<string>
    const mtls: Growable<string>
    const vs: Growable<Vec>
    const vts: Growable<Vec>
    const vns: Growable<Vec>
    const fs: Growable<Face>

    ghost predicate Valid()
      reads this, mtls, vs, vts, vns, fs
    {
      mtls.Valid() && vs.Valid() && vts.Valid() && vns.Valid() && fs.Valid() &&
      vs != vts && vs != vns && vts != vns
    }

    /** The object's content, with `m` the current material of the reading loop. */
    ghost function State(m: Option<nat>): ReadState
      reads this, mtls, vs, vts, vns, fs
    {
      ReadState(mtllib, mtls.items, vs.items, vts.items, vns.items, fs.items, m)
    }

    /** The allocation at the top of obj_read: no library and five empty arrays. */
    constructor ()
      ensures Valid() && State(None) == Empty
      ensures fresh(mtls) && fresh(vs) && fresh(vts) && fresh(vns) && fresh(fs)
    {
      mtllib := None;
      mtls := new Growable(0);
      vs := new Growable(0);
      vts := new Growable(0);
      vns := new Growable(0);
      fs := new Growable(0);
    }

    /** One pass of obj_read's line loop; `ok` is false when the line is undefined. */
    method ReadLine(line: string, m: Option<nat>, library: Library) returns (ok: bool, m': Option<nat>)
      requires Valid()
      modifies this, mtls, vs, vts, vns, fs
      ensures Valid()
      ensures ok == ReadStep(old(State(m)), line, library).Some?
      ensures ok ==> State(m') == ReadStep(old(State(m)), line, library).value
    {
      var s := Strsep(Some(line), SPACES);
      var next := s.rest;
      ok, m' := true, m;
      match CommandOf(s.token.value)
      case VertexCmd =>
        if next.None? { ok := false; } else { vs.Append(Vec(vs.count + 1)); }
      case TextureCmd =>
        if next.None? { ok := false; } else { vts.Append(Vec(vts.count + 1)); }
      case NormalCmd =>
        if next.None? { ok := false; } else { vns.Append(Vec(vns.count + 1)); }
      case FaceCmd =>
        ok := ReadFace(next, m);
      case MtlLibCmd =>
        ok := ReadMtlLib(next, library);
      case MaterialCmd =>
        ok, m' := ReadMaterial(next, m);
      case OtherCmd =>
    }

    /** The `f` branch. */
    method ReadFace(next: Option<string>, m: Option<nat>) returns (ok: bool)
      requires Valid()
      modifies fs
      ensures Valid()
      ensures ok == FaceStep(old(State(m)), next).Some?
      ensures ok ==> State(m) == FaceStep(old(State(m)), next).value
    {
      var cs := ReadCorners(next);
      if cs.None? {
        return false;
      }
      fs.Append(Face(cs.value, m));
      return true;
    }

    /** The `mtllib` branch. */
    method ReadMtlLib(next: Option<string>, library: Library) returns (ok: bool)
      requires Valid()
      modifies this, mtls
      ensures Valid()
      ensures ok == MtlLibStep(old(State(None)), next, library).Some?
      ensures ok ==> State(None) == MtlLibStep(old(State(None)), next, library).value
    {
      var arg := Strsep(next, SPACES).token;
      if arg.None? || library(arg.value).None? {
        return false;
      }
      mtllib := arg;
      ok := ReadLibrary(mtls, library(arg.value).value);
    }

    /** The `g`/`usemtl` branch. */
    method ReadMaterial(next: Option<string>, m: Option<nat>) returns (ok: bool, m': Option<nat>)
      requires Valid()
      ensures ok == MaterialStep(State(m), next).Some?
      ensures ok ==> State(m') == MaterialStep(State(m), next).value
    {
      var arg := Strsep(next, SPACES).token;
      if arg.None? {
        return mtls.count == 0, None;
      }
      m' := FindMaterial(mtls, arg.value);
      return true, m';
    }

    /** The normals loop at the end of obj_read, which follows the vertex pointer of the
        three corners of every face: the first face with one that is NULL or that points
        outside the vertex array, if any. */
    method FirstFaceWithoutVertex() returns (bad: Option<nat>)
      requires Valid()
      ensures bad.None? <==> forall i :: 0 <= i < fs.count ==> HasVertices(fs.items[i], vs.count)
      ensures bad.Some? ==> bad.value < fs.count && !HasVertices(fs.items[bad.value], vs.count) &&
                            forall i :: 0 <= i < bad.value ==> HasVertices(fs.items[i], vs.count)
    {
      var i := 0;
      while i < fs.count
        invariant 0 <= i <= fs.count
        invariant forall j :: 0 <= j < i ==> HasVertices(fs.items[j], vs.count)
      {
        var f := fs.items[i];
        if !(|f.corners| >= 3 && InArray(f.corners[0].v, vs.count) && InArray(f.corners[1].v, vs.count)
             && InArray(f.corners[2].v, vs.count)) {
          return Some(i);
        }
        i := i + 1;
      }
      return None;
    }
  }

  /** A pointer that is not NULL and points at one of the `count` elements of its array. */
  predicate InArray(r: Option<int>, count: nat)
  {
    r.Some? && 0 <= r.value < count
  }

  /** The three corner pointers the normal computation follows point at vertices that
      exist: none is NULL and none lies outside the `count` vertices read. */
  predicate HasVertices(f: Face, count: nat)
  {
    |f.corners| >= 3 && InArray(f.corners[0].v, count) && InArray(f.corners[1].v, count)
    && InArray(f.corners[2].v, count)
  }

  /** The loop over the three corner tokens of an `f` line. */
  method ReadCorners(next: Option<string>) returns (cs: Option<seq<Corner>>)
    ensures cs == ParseCorners(next, CORNERS)
  {
    var rest := next;
    var acc: seq<Corner> := [];
    var i := 0;
    ghost var left := CORNERS;
    PrefixedEmpty(ParseCorners(next, CORNERS));
    while i < 3
      invariant 0 <= i <= 3 && |acc| == i && left == CORNERS - i
      invariant ParseCorners(next, CORNERS) == Prefixed(acc, ParseCorners(rest, left))
    {
      var s := Strsep(rest, SPACES);
      var c := ParseCorner(s.token);
      if c.None? {
        return None;
      }
      ghost var left' := left - 1;
      CornersLoopStep(next, acc, rest, left, left');
      acc := acc + [c.value];
      rest := s.rest;
      i := i + 1;
      left := left';
    }
    assert acc + [] == acc;
    return Some(acc);
  }

  /** One pass of the corner loop keeps its invariant; `left'` is one less than `left`. */
  lemma CornersLoopStep(next: Option<string>, acc: seq<Corner>, rest: Option<string>, left: nat, left': nat)
    requires left > 0 && left' == left - 1
    requires ParseCorners(next, CORNERS) == Prefixed(acc, ParseCorners(rest, left))
    requires ParseCorner(Strsep(rest, SPACES).token).Some?
    ensures ParseCorners(next, CORNERS) ==
            Prefixed(acc + [ParseCorner(Strsep(rest, SPACES).token).value], ParseCorners(Strsep(rest, SPACES).rest, left'))
  {
    PrefixedStep(acc, ParseCorner(Strsep(rest, SPACES).token).value, ParseCorners(Strsep(rest, SPACES).rest, left'));
  }

  function Prefixed(acc: seq<Corner>, r: Option<seq<Corner>>): Option<seq<Corner>>
  {
    match r case None => None case Some(cs) => Some(acc + cs)
  }

  lemma PrefixedEmpty(r: Option<seq<Corner>>)
    ensures Prefixed([], r) == r
  {
    if r.Some? {
      assert [] + r.value == r.value;
    }
  }

  lemma PrefixedStep(acc: seq<Corner>, c: Corner, r: Option<seq<Corner>>)
    ensures Prefixed(acc, Prefixed([c], r)) == Prefixed(acc + [c], r)
  {
    if r.Some? {
      Associate(acc, [c], r.value);
    }
  }

  /** The search loop of the `g`/`usemtl` branch. */
  method FindMaterial(mtls: Growable<string>, name: string) returns (m: Option<nat>)
    requires mtls.Valid()
    ensures m == Lookup(mtls.items, name)
  {
    var mi := 0;
    while mi < mtls.count
      invariant 0 <= mi <= mtls.count
      invariant Lookup(mtls.items, name) == Shifted(mi, Lookup(mtls.items[mi..], name))
    {
      if mtls.items[mi] == name {
        return Some(mi);
      }
      assert mtls.items[mi..][1..] == mtls.items[mi + 1..];
      mi := mi + 1;
    }
    return None;
  }

  function Shifted(k: nat, r: Option<nat>): Option<nat>
  {
    match r case None => None case Some(i) => Some(i + k)
  }

  /** `mtllib_read`: appends the materials of the library's lines, in order; false when a
      line is undefined. */
  method ReadLibrary(mtls: Growable<string>, lines: seq<string>) returns (ok: bool)
    requires mtls.Valid()
    modifies mtls
    ensures mtls.Valid()
    ensures ok == LibraryNames(lines).Some?
    ensures ok ==> mtls.items == old(mtls.items) + LibraryNames(lines).value
  {
    var current: Option<string> := None;
    var found: seq<string> := [];
    var k := 0;
    while k < |lines|
      invariant 0 <= k <= |lines|
      invariant LibRun(lines[..k]) == Some(LibState(found, current))
      invariant mtls.Valid() && mtls.items == old(mtls.items) + found
    {
      assert lines[..k + 1][..k] == lines[..k];
      assert LibRun(lines[..k + 1]) == LibStep(LibState(found, current), lines[k]);
      var s := Strsep(Some(lines[k]), SPACES);
      if ReadsNull(s) {
        LibStaysUndefined(lines, k + 1);
        return false;
      }
      if Key(s.token.value) == Some(('n', 'e')) {
        var name := Strsep(s.rest, SPACES).token;
        if name.None? {
          LibStaysUndefined(lines, k + 1);
          return false;
        }
        if current.Some? {
          mtls.Append(current.value);
          found := found + [current.value];
        } else {
          assert found + Pending(current) == found;
        }
        current := name;
      }
      k := k + 1;
    }
    assert lines[..k] == lines;
    if current.Some? {
      mtls.Append(current.value);
      found := found + [current.value];
    }
    return true;
  }

  /** How a call of obj_read ends. */
  datatype ReadStatus = NotOpened | Loaded | UndefinedLine(line: nat) | FaceWithoutVertex(face: nat)

  /** `obj_read`: NULL when the file cannot be opened; otherwise the object the lines build.
      Reading stops at the first line whose behaviour is undefined, and the normals loop
      finds the first face with a vertex pointer that is NULL or outside the vertex array. */
  method ObjRead(openable: bool, lines: seq<string>, library: Library) returns (o: Obj?, status: ReadStatus)
    ensures !openable <==> o == null
    ensures !openable ==> status == NotOpened
    ensures openable ==> o.Valid() && fresh(o) && status != NotOpened
    ensures status.UndefinedLine? ==> (
      var k := status.line;
      k < |lines| && Run(lines[..k], library).Some? && Run(lines[..k + 1], library).None?)
    ensures status.Loaded? || status.FaceWithoutVertex? ==> (
      Run(lines, library).Some? && o.State(Run(lines, library).value.m) == Run(lines, library).value)
    ensures status.Loaded? ==> forall i :: 0 <= i < o.fs.count ==> HasVertices(o.fs.items[i], o.vs.count)
    ensures status.FaceWithoutVertex? ==>
      status.face < o.fs.count && !HasVertices(o.fs.items[status.face], o.vs.count)
  {
    if !openable {
      return null, NotOpened;
    }
    o := new Obj();
    var m: Option<nat> := None;
    var k := 0;
    while k < |lines|
      invariant 0 <= k <= |lines|
      invariant o.Valid() && fresh(o) && fresh(o.mtls) && fresh(o.vs) && fresh(o.vts) && fresh(o.vns) && fresh(o.fs)
      invariant Run(lines[..k], library) == Some(o.State(m))
    {
      RunStep(lines, k, library);
      var ok;
      ok, m := o.ReadLine(lines[k], m, library);
      if !ok {
        return o, UndefinedLine(k);
      }
      k := k + 1;
    }
    assert lines[..k] == lines;
    var bad := o.FirstFaceWithoutVertex();
    status := if bad.Some? then FaceWithoutVertex(bad.value) else Loaded;
  }

  // ---------------------------------------------------------------------
  // obj_write

  /** One line of the written file: text, or the coordinates of element `position` of the
      `v`, `vt` or `vn` array (the numbers are not modelled). */
  datatype OutLine = Text(text: string) | Coords(kind: string, position: nat)

  function CoordLines(kind: string, n: nat): (r: seq<OutLine>)
    ensures |r| == n && forall i :: 0 <= i < n ==> r[i] == Coords(kind, i)
  {
    seq(n, i requires 0 <= i < n => Coords(kind, i))
  }

  /** The vectors as obj_write leaves them: element `i` has index `i + 1`. */
  function Positions(n: nat): (r: seq<Vec>)
    ensures |r| == n && Numbered(r)
  {
    seq(n, i => Vec(i + 1))
  }

  /** The bound of what `%d` prints of an element's index without overflow. */
  const INT_MAX := 0x7FFF_FFFF

  /** The ` v/vt/vn` text of a corner, printing each element's renumbered index; None when
      a pointer it follows is NULL (the vertex) or outside its array. */
  function CornerText(c: Corner, nv: nat, nt: nat, nn: nat): Option<string>
  {
    if c.v.None? || !(0 <= c.v.value < nv) then None
    else if c.vt.Some? && !(0 <= c.vt.value < nt) then None
    else if c.vn.Some? && !(0 <= c.vn.value < nn) then None
    else Some(" " + Decimal(c.v.value + 1) +
              (if c.vt.Some? then "/" + Decimal(c.vt.value + 1) else if c.vn.Some? then "/" else "") +
              (if c.vn.Some? then "/" + Decimal(c.vn.value + 1) else ""))
  }

  /** The corner texts of a face, one after another. */
  function CornersText(cs: seq<Corner>, nv: nat, nt: nat, nn: nat): Option<string>
  {
    if cs == [] then Some("")
    else match CornersText(cs[..|cs| - 1], nv, nt, nn)
      case None => None
      case Some(t) =>
        match CornerText(cs[|cs| - 1], nv, nt, nn)
        case None => None
        case Some(u) => Some(t + u)
  }

  /** The material of the face before face `i`, NULL before the first. */
  function Before(fs: seq<Face>, i: nat): Option<nat>
    requires i <= |fs|
  {
    if i == 0 then None else fs[i - 1].m
  }

  /** The `usemtl`/`g` lines written before a face whose material is `m` when the previous
      face's was `prev`. As written, a switch to NULL dereferences it (None); `nullSafe`
      writes nothing for that switch instead. */
  function MaterialLines(m: Option<nat>, prev: Option<nat>, names: seq<string>, nullSafe: bool): Option<seq<OutLine>>
  {
    if m == prev then Some([])
    else if m.None? then (if nullSafe then Some([]) else None)
    else if m.value < |names| then Some([Text("usemtl " + names[m.value]), Text("g " + names[m.value])])
    else None
  }

  /** The lines of face `i`. */
  function FaceLines(fs: seq<Face>, i: nat, names: seq<string>, nv: nat, nt: nat, nn: nat, nullSafe: bool): Option<seq<OutLine>>
    requires i < |fs|
  {
    match MaterialLines(fs[i].m, Before(fs, i), names, nullSafe)
    case None => None
    case Some(h) =>
      match CornersText(fs[i].corners, nv, nt, nn)
      case None => None
      case Some(t) => Some(h + [Text("f" + t)])
  }

  /** The lines of the first `n` faces. */
  function FacesOut(fs: seq<Face>, n: nat, names: seq<string>, nv: nat, nt: nat, nn: nat, nullSafe: bool): Option<seq<OutLine>>
    requires n <= |fs|
  {
    if n == 0 then Some([])
    else match FacesOut(fs, n - 1, names, nv, nt, nn, nullSafe)
      case None => None
      case Some(init) =>
        match FaceLines(fs, n - 1, names, nv, nt, nn, nullSafe)
        case None => None
        case Some(x) => Some(init + x)
  }

  function Header(mtllib: Option<string>): seq<OutLine>
  {
    if mtllib.Some? then [Text(mtllib.value)] else []
  }

  /** The file obj_write writes for an object, or None when it dereferences a NULL or stray
      pointer: the library name alone on the first line, the coordinate lines, then the faces. */
  function Written(st: ReadState, nullSafe: bool): Option<seq<OutLine>>
  {
    var coords := Header(st.mtllib) + CoordLines("v", |st.vs|) + CoordLines("vt", |st.vts|) + CoordLines("vn", |st.vns|);
    match FacesOut(st.fs, |st.fs|, st.mtls, |st.vs|, |st.vts|, |st.vns|, nullSafe)
    case None => None
    case Some(faces) => Some(coords + faces)
  }

  /** obj_write as written. */
  function WrittenAsWritten(st: ReadState): Option<seq<OutLine>>
  {
    Written(st, false)
  }

  /** A face without a material after one with a material: obj_write as written follows the
      NULL material pointer to print its name; the corrected version writes the faces. */
  lemma NullMaterialSwitch()
    ensures (
      var c := Corner(Some(0), None, None);
      var st := ReadState(None, ["red"], [Vec(1)], [], [], [Face([c, c, c], Some(0)), Face([c, c, c], None)], None);
      WrittenAsWritten(st) == None &&
      Written(st, true) == Some([Coords("v", 0), Text("usemtl red"), Text("g red"), Text("f 1 1 1"), Text("f 1 1 1")]))
  {
    var c := Corner(Some(0), None, None);
    var fs := [Face([c, c, c], Some(0)), Face([c, c, c], None)];
    SampleFirstFace(c, fs, false);
    SampleFirstFace(c, fs, true);
    SampleSecondFace(c, fs);
    SampleCoords();
    var first := [Text("usemtl red"), Text("g red"), Text("f 1 1 1")];
    assert FacesOut(fs, 2, ["red"], 1, 0, 0, false) == None;
    assert FacesOut(fs, 2, ["red"], 1, 0, 0, true) == Some(first + [Text("f 1 1 1")]);
    assert [Coords("v", 0)] + (first + [Text("f 1 1 1")]) ==
           [Coords("v", 0), Text("usemtl red"), Text("g red"), Text("f 1 1 1"), Text("f 1 1 1")];
  }

  /** Both versions write the first sample face after its material lines. */
  lemma SampleFirstFace(c: Corner, fs: seq<Face>, nullSafe: bool)
    requires c == Corner(Some(0), None, None) && fs == [Face([c, c, c], Some(0)), Face([c, c, c], None)]
    ensures FacesOut(fs, 1, ["red"], 1, 0, 0, nullSafe) == Some([Text("usemtl red"), Text("g red"), Text("f 1 1 1")])
  {
    SampleFaceText(c);
    var first := [Text("usemtl red"), Text("g red"), Text("f 1 1 1")];
    assert MaterialLines(Some(0), None, ["red"], nullSafe) == Some([Text("usemtl red"), Text("g red")]) by {
      assert "usemtl " + "red" == "usemtl red" && "g " + "red" == "g red";
    }
    assert "f" + " 1 1 1" == "f 1 1 1";
    assert [Text("usemtl red"), Text("g red")] + [Text("f 1 1 1")] == first;
    assert FaceLines(fs, 0, ["red"], 1, 0, 0, nullSafe) == Some(first);
    assert FacesOut(fs, 0, ["red"], 1, 0, 0, nullSafe) == Some([]);
    assert [] + first == first;
  }

  /** The second sample face switches to NULL: a dereference as written, the face's line alone
      when corrected. */
  lemma SampleSecondFace(c: Corner, fs: seq<Face>)
    requires c == Corner(Some(0), None, None) && fs == [Face([c, c, c], Some(0)), Face([c, c, c], None)]
    ensures FaceLines(fs, 1, ["red"], 1, 0, 0, false) == None
    ensures FaceLines(fs, 1, ["red"], 1, 0, 0, true) == Some([Text("f 1 1 1")])
  {
    SampleFaceText(c);
    assert "f" + " 1 1 1" == "f 1 1 1";
    assert [] + [Text("f 1 1 1")] == [Text("f 1 1 1")];
  }

  /** The coordinate lines of the sample: one vertex, no library. */
  lemma SampleCoords()
    ensures Header(None) + CoordLines("v", 1) + CoordLines("vt", 0) + CoordLines("vn", 0) == [Coords("v", 0)]
  {
  }

  /** The text of three corners naming vertex 1 only. */
  lemma SampleFaceText(c: Corner)
    requires c == Corner(Some(0), None, None)
    ensures CornersText([c, c, c], 1, 0, 0) == Some(" 1 1 1")
  {
    assert Decimal(1) == "1";
    assert " " + "1" + "" + "" == " 1";
    assert CornerText(c, 1, 0, 0) == Some(" 1");
    assert [c, c, c][..2] == [c, c];
    assert [c, c][..1] == [c];
    assert [c][..0] == [];
    assert CornersText([], 1, 0, 0) == Some("");
    assert "" + " 1" == " 1";
    assert CornersText([c], 1, 0, 0) == Some(" 1");
    assert " 1" + " 1" == " 1 1";
    assert CornersText([c, c], 1, 0, 0) == Some(" 1 1");
    assert " 1 1" + " 1" == " 1 1 1";
  }

  /** A corner that names its three elements inside their arrays. */
  predicate CornerInRange(c: Corner, nv: nat, nt: nat, nn: nat)
  {
    c.v.Some? && 0 <= c.v.value < nv && (c.vt.Some? ==> 0 <= c.vt.value < nt) && (c.vn.Some? ==> 0 <= c.vn.value < nn)
  }

  /** The corrected obj_write is defined on every object whose corners name elements inside
      the arrays and whose materials name entries of the material array. */
  lemma {:induction false} WrittenDefined(st: ReadState)
    requires forall i, j :: 0 <= i < |st.fs| && 0 <= j < |st.fs[i].corners| ==>
               CornerInRange(st.fs[i].corners[j], |st.vs|, |st.vts|, |st.vns|)
    requires forall i :: 0 <= i < |st.fs| ==> st.fs[i].m.Some? ==> st.fs[i].m.value < |st.mtls|
    ensures Written(st, true).Some?
  {
    FacesDefined(st, |st.fs|);
  }

  lemma {:induction false} FacesDefined(st: ReadState, n: nat)
    requires n <= |st.fs|
    requires forall i, j :: 0 <= i < |st.fs| && 0 <= j < |st.fs[i].corners| ==>
               CornerInRange(st.fs[i].corners[j], |st.vs|, |st.vts|, |st.vns|)
    requires forall i :: 0 <= i < |st.fs| ==> st.fs[i].m.Some? ==> st.fs[i].m.value < |st.mtls|
    ensures FacesOut(st.fs, n, st.mtls, |st.vs|, |st.vts|, |st.vns|, true).Some?
  {
    if n > 0 {
      FacesDefined(st, n - 1);
      var cs := st.fs[n - 1].corners;
      CornersDefined(cs, |cs|, |st.vs|, |st.vts|, |st.vns|);
      assert cs[..|cs|] == cs;
    }
  }

  lemma {:induction false} CornersDefined(cs: seq<Corner>, n: nat, nv: nat, nt: nat, nn: nat)
    requires n <= |cs|
    requires forall j :: 0 <= j < |cs| ==> CornerInRange(cs[j], nv, nt, nn)
    ensures CornersText(cs[..n], nv, nt, nn).Some?
  {
    if n > 0 {
      assert cs[..n][..n - 1] == cs[..n - 1];
      CornersDefined(cs, n - 1, nv, nt, nn);
    }
  }

  /** Renumbers an array of vectors in place and writes its coordinate lines. */
  method Renumber(a: Growable<Vec>, kind: string) returns (out: seq<OutLine>)
    requires a.Valid()
    modifies a
    ensures a.Valid() && a.count == old(a.count) && a.items == Positions(a.count)
    ensures out == CoordLines(kind, a.count)
  {
    var i := 0;
    out := [];
    while i < a.count
      invariant 0 <= i <= a.count && a.Valid() && a.count == old(a.count)
      invariant forall j :: 0 <= j < i ==> a.items[j] == Vec(j + 1)
      invariant out == CoordLines(kind, i)
    {
      a.Set(i, Vec(i + 1));
      out := out + [Coords(kind, i)];
      i := i + 1;
    }
  }

  /** The corner loop of a face line, reading the indices the renumbering stored. */
  method WriteCorners(cs: seq<Corner>, vs: seq<Vec>, vts: seq<Vec>, vns: seq<Vec>) returns (t: Option<string>)
    requires Numbered(vs) && Numbered(vts) && Numbered(vns)
    ensures t == CornersText(cs, |vs|, |vts|, |vns|)
  {
    var text := "";
    var j := 0;
    while j < |cs|
      invariant 0 <= j <= |cs|
      invariant CornersText(cs[..j], |vs|, |vts|, |vns|) == Some(text)
    {
      assert cs[..j + 1][..j] == cs[..j];
      var c := cs[j];
      if c.v.None? || !(0 <= c.v.value < |vs|) || (c.vt.Some? && !(0 <= c.vt.value < |vts|))
         || (c.vn.Some? && !(0 <= c.vn.value < |vns|)) {
        CornersStayUndefined(cs, j + 1, |vs|, |vts|, |vns|);
        return None;
      }
      var vtPart := if c.vt.Some? then "/" + Decimal(vts[c.vt.value].index) else if c.vn.Some? then "/" else "";
      var vnPart := if c.vn.Some? then "/" + Decimal(vns[c.vn.value].index) else "";
      var piece := " " + Decimal(vs[c.v.value].index) + vtPart + vnPart;
      assert CornerText(c, |vs|, |vts|, |vns|) == Some(piece);
      text := text + piece;
      j := j + 1;
    }
    assert cs[..j] == cs;
    return Some(text);
  }

  lemma {:induction false} CornersStayUndefined(cs: seq<Corner>, j: nat, nv: nat, nt: nat, nn: nat)
    requires j <= |cs| && CornersText(cs[..j], nv, nt, nn).None?
    ensures CornersText(cs, nv, nt, nn).None?
    decreases |cs| - j
  {
    if j < |cs| {
      assert cs[..j + 1][..j] == cs[..j];
      CornersStayUndefined(cs, j + 1, nv, nt, nn);
    } else {
      assert cs[..j] == cs;
    }
  }

  lemma {:induction false} FacesStayUndefined(fs: seq<Face>, i: nat, n: nat, names: seq<string>, nv: nat, nt: nat, nn: nat, nullSafe: bool)
    requires i <= n <= |fs| && FacesOut(fs, i, names, nv, nt, nn, nullSafe).None?
    ensures FacesOut(fs, n, names, nv, nt, nn, nullSafe).None?
    decreases n - i
  {
    if i < n {
      FacesStayUndefined(fs, i + 1, n, names, nv, nt, nn, nullSafe);
    }
  }

  /** The library line and the coordinate lines, renumbering the vectors. */
  method WriteCoords(o: Obj) returns (coords: seq<OutLine>)
    requires o.Valid()
    modifies o.vs, o.vts, o.vns
    ensures o.Valid()
    ensures o.vs.items == Positions(old(o.vs.count)) && o.vts.items == Positions(old(o.vts.count))
    ensures o.vns.items == Positions(old(o.vns.count))
    ensures coords == Header(o.mtllib) + CoordLines("v", old(o.vs.count)) + CoordLines("vt", old(o.vts.count)) +
                      CoordLines("vn", old(o.vns.count))
  {
    coords := if o.mtllib.Some? then [Text(o.mtllib.value)] else [];
    var more := Renumber(o.vs, "v");
    coords := coords + more;
    more := Renumber(o.vts, "vt");
    coords := coords + more;
    more := Renumber(o.vns, "vn");
    coords := coords + more;
  }

  /** The material switch before a face whose material is `fm`, `m` being the last one
      written, with the switch to NULL corrected. */
  method SwitchMaterial(fm: Option<nat>, m: Option<nat>, mtls: seq<string>) returns (header: Option<seq<OutLine>>)
    ensures header == MaterialLines(fm, m, mtls, true)
  {
    header := Some([]);
    if fm != m && fm.Some? {
      if fm.value >= |mtls| {
        return None;
      }
      var name := mtls[fm.value];
      header := Some([Text("usemtl " + name), Text("g " + name)]);
    }
  }

  /** The lines of face `i`: the material switch, then the corner loop. */
  method WriteFace(fs: seq<Face>, i: nat, m: Option<nat>, mtls: seq<string>, vs: seq<Vec>, vts: seq<Vec>, vns: seq<Vec>)
    returns (lines: Option<seq<OutLine>>)
    requires i < |fs| && m == Before(fs, i)
    requires Numbered(vs) && Numbered(vts) && Numbered(vns)
    ensures lines == FaceLines(fs, i, mtls, |vs|, |vts|, |vns|, true)
  {
    var header := SwitchMaterial(fs[i].m, m, mtls);
    if header.None? {
      return None;
    }
    var t := WriteCorners(fs[i].corners, vs, vts, vns);
    if t.None? {
      return None;
    }
    return Some(header.value + [Text("f" + t.value)]);
  }

  /** `obj_write` with the NULL-material switch corrected: renumbers the vectors in place and
      returns the lines written, or None at a stray pointer. */
  method ObjWrite(o: Obj) returns (out: Option<seq<OutLine>>)
    requires o.Valid()
    modifies o.vs, o.vts, o.vns
    ensures o.Valid()
    ensures o.vs.items == Positions(old(o.vs.count)) && o.vts.items == Positions(old(o.vts.count))
    ensures o.vns.items == Positions(old(o.vns.count))
    ensures out == Written(old(o.State(None)), true)
  {
    var coords := WriteCoords(o);
    var faces := WriteFaces(o.fs.items, o.mtls.items, o.vs.items, o.vts.items, o.vns.items);
    if faces.None? {
      return None;
    }
    return Some(coords + faces.value);
  }

  /** The face loop of obj_write, over the renumbered vectors. */
  method WriteFaces(fs: seq<Face>, mtls: seq<string>, vs: seq<Vec>, vts: seq<Vec>, vns: seq<Vec>)
    returns (out: Option<seq<OutLine>>)
    requires Numbered(vs) && Numbered(vts) && Numbered(vns)
    ensures out == FacesOut(fs, |fs|, mtls, |vs|, |vts|, |vns|, true)
  {
    var m: Option<nat> := None;
    var faces: seq<OutLine> := [];
    var i := 0;
    while i < |fs|
      invariant 0 <= i <= |fs|
      invariant m == Before(fs, i)
      invariant FacesOut(fs, i, mtls, |vs|, |vts|, |vns|, true) == Some(faces)
    {
      var lines := WriteFace(fs, i, m, mtls, vs, vts, vns);
      if lines.None? {
        FacesStayUndefined(fs, i + 1, |fs|, mtls, |vs|, |vts|, |vns|, true);
        return None;
      }
      faces := faces + lines.value;
      m := fs[i].m;
      i := i + 1;
    }
    return Some(faces);
  }

  // ---------------------------------------------------------------------
  // Reading back what obj_write writes

  lemma DigitsAvoid(n: nat, delims: set<char>)
    requires forall c :: c in delims ==> !IsDigit(c)
    ensures Avoids(Decimal(n), delims)
  {
  }

  /** A printed index reads back, through `atoi`, as the element it names. */
  lemma RefOfDecimal(n: nat)
    requires 1 <= n <= INT_MAX
    ensures RefOf(AtoI(Decimal(n))) == Some(n - 1)
  {
    StrToLDecimal(n);
  }

  lemma AtoIEmpty()
    ensures AtoI([]) == 0
  {
    assert ScanNumber([], 10).digits == 0;
  }

  /** ParseCorner on a token whose three slash-separated fields are known. */
  lemma ParseThreeFields(tok: string, a: string, rest1: string, b: string, rest2: string, d: string)
    requires Strsep(Some(tok), SLASH) == Sep(Some(a), Some(rest1))
    requires Strsep(Some(rest1), SLASH) == Sep(Some(b), Some(rest2))
    requires Strsep(Some(rest2), SLASH) == Sep(Some(d), None)
    ensures ParseCorner(Some(tok)) == Some(Corner(RefOf(AtoI(a)), RefOf(AtoI(b)), RefOf(AtoI(d))))
  {
    assert SlashFields(None, 0) == [];
    assert SlashFields(Some(rest2), 1) == [AtoI(d)];
    assert SlashFields(Some(rest1), 2) == [AtoI(b), AtoI(d)];
    assert SlashFields(Some(tok), 3) == [AtoI(a), AtoI(b), AtoI(d)];
  }

  /** ParseCorner on a token of two fields. */
  lemma ParseTwoFields(tok: string, a: string, rest1: string, b: string)
    requires Strsep(Some(tok), SLASH) == Sep(Some(a), Some(rest1))
    requires Strsep(Some(rest1), SLASH) == Sep(Some(b), None)
    ensures ParseCorner(Some(tok)) == Some(Corner(RefOf(AtoI(a)), RefOf(AtoI(b)), None))
  {
    assert SlashFields(None, 0) == [];
    assert SlashFields(None, 1) == [0];
    assert SlashFields(Some(rest1), 2) == [AtoI(b), 0];
    assert SlashFields(Some(tok), 3) == [AtoI(a), AtoI(b), 0];
  }

  // The four shapes of a corner token, for fields without slashes.

  lemma FieldsFull(a: string, b: string, d: string)
    requires Avoids(a, SLASH) && Avoids(b, SLASH) && Avoids(d, SLASH)
    ensures ParseCorner(Some(a + "/" + b + "/" + d)) == Some(Corner(RefOf(AtoI(a)), RefOf(AtoI(b)), RefOf(AtoI(d))))
  {
    var tok := a + "/" + b + "/" + d;
    assert tok == a + ['/'] + (b + ['/'] + d);
    StrsepSplits(a, '/', b + ['/'] + d, SLASH);
    StrsepSplits(b, '/', d, SLASH);
    StrsepWhole(d, SLASH);
    ParseThreeFields(tok, a, b + ['/'] + d, b, d, d);
  }

  lemma FieldsTexture(a: string, b: string)
    requires Avoids(a, SLASH) && Avoids(b, SLASH)
    ensures ParseCorner(Some(a + "/" + b)) == Some(Corner(RefOf(AtoI(a)), RefOf(AtoI(b)), None))
  {
    assert a + "/" + b == a + ['/'] + b;
    StrsepSplits(a, '/', b, SLASH);
    StrsepWhole(b, SLASH);
    ParseTwoFields(a + "/" + b, a, b, b);
  }

  lemma FieldsNormal(a: string, d: string)
    requires Avoids(a, SLASH) && Avoids(d, SLASH)
    ensures ParseCorner(Some(a + "//" + d)) == Some(Corner(RefOf(AtoI(a)), None, RefOf(AtoI(d))))
  {
    var tok := a + "//" + d;
    assert tok == a + ['/'] + ([] + ['/'] + d);
    StrsepSplits(a, '/', [] + ['/'] + d, SLASH);
    StrsepSplits([], '/', d, SLASH);
    StrsepWhole(d, SLASH);
    ParseThreeFields(tok, a, [] + ['/'] + d, [], d, d);
    AtoIEmpty();
  }

  lemma FieldsVertex(a: string)
    requires Avoids(a, SLASH)
    ensures ParseCorner(Some(a)) == Some(Corner(RefOf(AtoI(a)), None, None))
  {
    StrsepWhole(a, SLASH);
    assert SlashFields(None, 2) == [0, 0] by {
      assert SlashFields(None, 1) == [0] + SlashFields(None, 0);
    }
    assert SlashFields(Some(a), 3) == [AtoI(a), 0, 0];
  }

  /** The token of a corner, without its leading space. */
  function CornerToken(c: Corner): string
    requires c.v.Some? && c.v.value >= 0 && (c.vt.Some? ==> c.vt.value >= 0) && (c.vn.Some? ==> c.vn.value >= 0)
  {
    Decimal(c.v.value + 1) +
    (if c.vt.Some? then "/" + Decimal(c.vt.value + 1) else if c.vn.Some? then "/" else "") +
    (if c.vn.Some? then "/" + Decimal(c.vn.value + 1) else "")
  }

  /** A corner obj_write can print: a vertex, and indices `%d` prints without overflow. */
  predicate Printable(c: Corner)
  {
    c.v.Some? && 0 <= c.v.value < INT_MAX && (c.vt.Some? ==> 0 <= c.vt.value < INT_MAX) &&
    (c.vn.Some? ==> 0 <= c.vn.value < INT_MAX)
  }

  /** The four shapes of a corner token. */
  lemma TokenShape(c: Corner)
    requires Printable(c)
    ensures c.vt.Some? && c.vn.Some? ==>
      CornerToken(c) == Decimal(c.v.value + 1) + "/" + Decimal(c.vt.value + 1) + "/" + Decimal(c.vn.value + 1)
    ensures c.vt.Some? && c.vn.None? ==> CornerToken(c) == Decimal(c.v.value + 1) + "/" + Decimal(c.vt.value + 1)
    ensures c.vt.None? && c.vn.Some? ==> CornerToken(c) == Decimal(c.v.value + 1) + "//" + Decimal(c.vn.value + 1)
    ensures c.vt.None? && c.vn.None? ==> CornerToken(c) == Decimal(c.v.value + 1)
  {
    if c.vt.None? && c.vn.Some? {
      var p, r := Decimal(c.v.value + 1), Decimal(c.vn.value + 1);
      assert p + "/" + ("/" + r) == p + "//" + r;
    }
  }

  // The four shapes of a printed corner token, read back.

  lemma FullReadsBack(p: nat, q: nat, r: nat)
    requires 1 <= p <= INT_MAX && 1 <= q <= INT_MAX && 1 <= r <= INT_MAX
    ensures ParseCorner(Some(Decimal(p) + "/" + Decimal(q) + "/" + Decimal(r))) == Some(Corner(Some(p - 1), Some(q - 1), Some(r - 1)))
  {
    DigitsAvoid(p, SLASH);
    DigitsAvoid(q, SLASH);
    DigitsAvoid(r, SLASH);
    FieldsFull(Decimal(p), Decimal(q), Decimal(r));
    RefOfDecimal(p);
    RefOfDecimal(q);
    RefOfDecimal(r);
  }

  lemma TextureReadsBack(p: nat, q: nat)
    requires 1 <= p <= INT_MAX && 1 <= q <= INT_MAX
    ensures ParseCorner(Some(Decimal(p) + "/" + Decimal(q))) == Some(Corner(Some(p - 1), Some(q - 1), None))
  {
    DigitsAvoid(p, SLASH);
    DigitsAvoid(q, SLASH);
    FieldsTexture(Decimal(p), Decimal(q));
    RefOfDecimal(p);
    RefOfDecimal(q);
  }

  lemma NormalReadsBack(p: nat, r: nat)
    requires 1 <= p <= INT_MAX && 1 <= r <= INT_MAX
    ensures ParseCorner(Some(Decimal(p) + "//" + Decimal(r))) == Some(Corner(Some(p - 1), None, Some(r - 1)))
  {
    DigitsAvoid(p, SLASH);
    DigitsAvoid(r, SLASH);
    FieldsNormal(Decimal(p), Decimal(r));
    RefOfDecimal(p);
    RefOfDecimal(r);
  }

  lemma VertexReadsBack(p: nat)
    requires 1 <= p <= INT_MAX
    ensures ParseCorner(Some(Decimal(p))) == Some(Corner(Some(p - 1), None, None))
  {
    DigitsAvoid(p, SLASH);
    FieldsVertex(Decimal(p));
    RefOfDecimal(p);
  }

  /** A corner token that obj_write prints reads back as the same corner. */
  lemma CornerReadsBack(c: Corner)
    requires Printable(c)
    ensures ParseCorner(Some(CornerToken(c))) == Some(c)
  {
    TokenShape(c);
    var p := c.v.value + 1;
    if c.vt.Some? && c.vn.Some? {
      var q, r := c.vt.value + 1, c.vn.value + 1;
      FullReadsBack(p, q, r);
      assert Corner(Some(p - 1), Some(q - 1), Some(r - 1)) == c;
    } else if c.vt.Some? {
      var q := c.vt.value + 1;
      TextureReadsBack(p, q);
      assert Corner(Some(p - 1), Some(q - 1), None) == c;
    } else if c.vn.Some? {
      var r := c.vn.value + 1;
      NormalReadsBack(p, r);
      assert Corner(Some(p - 1), None, Some(r - 1)) == c;
    } else {
      VertexReadsBack(p);
      assert Corner(Some(p - 1), None, None) == c;
    }
  }

  lemma TokenAvoidsSpaces(c: Corner)
    requires Printable(c)
    ensures Avoids(CornerToken(c), SPACES)
  {
    DigitsAvoid(c.v.value + 1, SPACES);
    if c.vt.Some? { DigitsAvoid(c.vt.value + 1, SPACES); }
    if c.vn.Some? { DigitsAvoid(c.vn.value + 1, SPACES); }
  }

  /** A list of corner tokens parses as its first token's corner, then the rest. */
  lemma ParseCornersFrom(next: Option<string>, n: nat, tok: string, rest: Option<string>, c: Corner, cs: seq<Corner>)
    requires n > 0 && Strsep(next, SPACES) == Sep(Some(tok), rest)
    requires ParseCorner(Some(tok)) == Some(c) && ParseCorners(rest, n - 1) == Some(cs)
    ensures ParseCorners(next, n) == Some([c] + cs)
  {
  }

  lemma ThreeCorners(a: Corner, b: Corner, c: Corner)
    ensures [c] + [] == [c] && [b] + [c] == [b, c] && [a] + [b, c] == [a, b, c]
  {
  }

  /** Three tokens separated by spaces and ended by a newline parse as their corners. */
  lemma TokensSplit(ta: string, tb: string, tc: string, a: Corner, b: Corner, c: Corner)
    requires Avoids(ta, SPACES) && Avoids(tb, SPACES) && Avoids(tc, SPACES)
    requires ParseCorner(Some(ta)) == Some(a) && ParseCorner(Some(tb)) == Some(b) && ParseCorner(Some(tc)) == Some(c)
    ensures ParseCorners(Some(ta + [' '] + (tb + [' '] + (tc + ['\n'] + []))), CORNERS) == Some([a, b, c])
  {
    var r2 := tc + ['\n'] + [];
    var r1 := tb + [' '] + r2;
    var line := ta + [' '] + r1;
    StrsepSplits(tc, '\n', [], SPACES);
    StrsepSplits(tb, ' ', r2, SPACES);
    StrsepSplits(ta, ' ', r1, SPACES);
    assert ParseCorners(Some([]), 0) == Some([]);
    ThreeCorners(a, b, c);
    ParseCornersFrom(Some(r2), 1, tc, Some([]), c, []);
    ParseCornersFrom(Some(r1), 2, tb, Some(r2), b, [c]);
    ParseCornersFrom(Some(line), 3, ta, Some(r1), a, [b, c]);
  }

  lemma KeywordsAvoid()
    ensures Avoids("f", SPACES) && Avoids("g", SPACES) && Avoids("usemtl", SPACES)
  {
  }

  /** `strsep` cuts a command from the rest of its line at the first space. */
  lemma CommandLine(keyword: string, rest: string)
    requires Avoids(keyword, SPACES)
    ensures Strsep(Some(keyword + [' '] + rest), SPACES) == Sep(Some(keyword), Some(rest))
  {
    StrsepSplits(keyword, ' ', rest, SPACES);
  }

  /** An `f` line whose corner tokens parse appends their face, with the current material. */
  lemma FaceCommand(st: ReadState, rest: string, cs: seq<Corner>, library: Library)
    requires ParseCorners(Some(rest), CORNERS) == Some(cs)
    ensures ReadStep(st, "f" + [' '] + rest, library) == Some(st.(fs := st.fs + [Face(cs, st.m)]))
  {
    KeywordsAvoid();
    CommandLine("f", rest);
    FaceDispatch(st, "f" + [' '] + rest, Some(rest), library);
  }

  /** The text of an `f` line with three tokens, as the face branch splits it. */
  lemma FaceLineText(ta: string, tb: string, tc: string)
    ensures "f " + ta + " " + tb + " " + tc + "\n" == "f" + [' '] + (ta + [' '] + (tb + [' '] + (tc + ['\n'] + [])))
  {
  }

  /** An `f` line of three tokens that parse as corners `cs` appends one face. */
  lemma FaceLineStep(st: ReadState, ta: string, tb: string, tc: string, cs: seq<Corner>, library: Library)
    requires ParseCorners(Some(ta + [' '] + (tb + [' '] + (tc + ['\n'] + []))), CORNERS) == Some(cs)
    ensures ReadStep(st, "f " + ta + " " + tb + " " + tc + "\n", library) == Some(st.(fs := st.fs + [Face(cs, st.m)]))
  {
    FaceCommand(st, ta + [' '] + (tb + [' '] + (tc + ['\n'] + [])), cs, library);
    FaceLineText(ta, tb, tc);
  }

  /** Three positive decimal numbers parse as three corners giving only a vertex. */
  lemma VertexTokens(p: nat, q: nat, r: nat)
    requires 1 <= p <= INT_MAX && 1 <= q <= INT_MAX && 1 <= r <= INT_MAX
    ensures ParseCorners(Some(Decimal(p) + [' '] + (Decimal(q) + [' '] + (Decimal(r) + ['\n'] + []))), CORNERS)
      == Some([Corner(Some(p - 1), None, None), Corner(Some(q - 1), None, None), Corner(Some(r - 1), None, None)])
  {
    VertexToken(p);
    VertexToken(q);
    VertexToken(r);
    TokensSplit(Decimal(p), Decimal(q), Decimal(r), Corner(Some(p - 1), None, None),
                Corner(Some(q - 1), None, None), Corner(Some(r - 1), None, None));
  }

  /** One positive decimal number is a face token that gives only a vertex. */
  lemma VertexToken(p: nat)
    requires 1 <= p <= INT_MAX
    ensures Avoids(Decimal(p), SPACES) && ParseCorner(Some(Decimal(p))) == Some(Corner(Some(p - 1), None, None))
  {
    VertexReadsBack(p);
    DigitsAvoid(p, SPACES);
  }

  /** An `f` line naming a vertex past the ones read so far, such as `f 5 6 7` after three
      `v` lines, is accepted as a face, and that face is one the normals loop cannot
      follow. */
  lemma FacePastVertices(st: ReadState, p: nat, q: nat, r: nat, library: Library)
    requires 1 <= p <= INT_MAX && 1 <= q <= INT_MAX && 1 <= r <= INT_MAX && |st.vs| < p
    ensures var face := Face([Corner(Some(p - 1), None, None), Corner(Some(q - 1), None, None),
                              Corner(Some(r - 1), None, None)], st.m);
      ReadStep(st, "f " + Decimal(p) + " " + Decimal(q) + " " + Decimal(r) + "\n", library)
        == Some(st.(fs := st.fs + [face]))
      && !HasVertices(face, |st.vs|)
  {
    VertexTokens(p, q, r);
    FaceLineStep(st, Decimal(p), Decimal(q), Decimal(r),
                 [Corner(Some(p - 1), None, None), Corner(Some(q - 1), None, None), Corner(Some(r - 1), None, None)], library);
  }

  /** A line whose command is `f` takes the face branch with the rest of the line. */
  lemma FaceDispatch(st: ReadState, line: string, next: Option<string>, library: Library)
    requires Strsep(Some(line), SPACES) == Sep(Some("f"), next)
    ensures ReadStep(st, line, library) == FaceStep(st, next)
  {
    assert CommandOf("f") == FaceCmd;
  }

  /** The text obj_write prints for an in-range corner is a space and the corner's token. */
  lemma CornerTextToken(c: Corner, nv: nat, nt: nat, nn: nat)
    requires CornerInRange(c, nv, nt, nn)
    ensures CornerText(c, nv, nt, nn) == Some(" " + CornerToken(c))
  {
    var p := Decimal(c.v.value + 1);
    var q := if c.vt.Some? then "/" + Decimal(c.vt.value + 1) else if c.vn.Some? then "/" else "";
    var r := if c.vn.Some? then "/" + Decimal(c.vn.value + 1) else "";
    assert " " + p + q + r == " " + (p + q + r);
  }

  lemma FaceTextShape(ta: string, tb: string, tc: string)
    ensures "f" + ("" + (" " + ta) + (" " + tb) + (" " + tc)) + "\n" ==
            "f" + [' '] + (ta + [' '] + (tb + [' '] + (tc + ['\n'] + [])))
  {
  }

  /** Three corners as CornersText prints them. */
  lemma ThreeCornersText(a: Corner, b: Corner, c: Corner, nv: nat, nt: nat, nn: nat)
    requires CornerInRange(a, nv, nt, nn) && CornerInRange(b, nv, nt, nn) && CornerInRange(c, nv, nt, nn)
    ensures CornersText([a, b, c], nv, nt, nn) ==
            Some("" + (" " + CornerToken(a)) + (" " + CornerToken(b)) + (" " + CornerToken(c)))
  {
    CornerTextToken(a, nv, nt, nn);
    CornerTextToken(b, nv, nt, nn);
    CornerTextToken(c, nv, nt, nn);
    assert [a, b, c][..2] == [a, b];
    assert [a, b][..1] == [a];
    assert [a][..0] == [];
    assert CornersText([], nv, nt, nn) == Some("");
    assert CornersText([a], nv, nt, nn) == Some("" + (" " + CornerToken(a)));
    assert CornersText([a, b], nv, nt, nn) == Some("" + (" " + CornerToken(a)) + (" " + CornerToken(b)));
  }

  /** A face line that obj_write prints for three corners inside arrays that `%d` can number,
      read back with its newline, appends a face of the same three corners with the current
      material. */
  lemma FaceLineReadsBack(st: ReadState, a: Corner, b: Corner, c: Corner, nv: nat, nt: nat, nn: nat, library: Library)
    requires nv <= INT_MAX && nt <= INT_MAX && nn <= INT_MAX
    requires CornerInRange(a, nv, nt, nn) && CornerInRange(b, nv, nt, nn) && CornerInRange(c, nv, nt, nn)
    ensures CornersText([a, b, c], nv, nt, nn).Some?
    ensures ReadStep(st, "f" + CornersText([a, b, c], nv, nt, nn).value + "\n", library) ==
            Some(st.(fs := st.fs + [Face([a, b, c], st.m)]))
  {
    var ta, tb, tc := CornerToken(a), CornerToken(b), CornerToken(c);
    ThreeCornersText(a, b, c, nv, nt, nn);
    FaceTextShape(ta, tb, tc);
    TokenAvoidsSpaces(a);
    TokenAvoidsSpaces(b);
    TokenAvoidsSpaces(c);
    CornerReadsBack(a);
    CornerReadsBack(b);
    CornerReadsBack(c);
    TokensSplit(ta, tb, tc, a, b, c);
    FaceCommand(st, ta + [' '] + (tb + [' '] + (tc + ['\n'] + [])), [a, b, c], library);
  }

  lemma MaterialTextShape(name: string)
    ensures "usemtl " + name + "\n" == "usemtl" + [' '] + (name + ['\n'] + [])
    ensures "g " + name + "\n" == "g" + [' '] + (name + ['\n'] + [])
  {
  }

  /** The `usemtl` and `g` lines obj_write prints for a material, read back with their
      newline, select the first material of that name. */
  lemma MaterialLineReadsBack(st: ReadState, name: string, library: Library)
    requires Avoids(name, SPACES)
    ensures ReadStep(st, "usemtl " + name + "\n", library) == Some(st.(m := Lookup(st.mtls, name)))
    ensures ReadStep(st, "g " + name + "\n", library) == Some(st.(m := Lookup(st.mtls, name)))
  {
    StrsepSplits(name, '\n', [], SPACES);
    MaterialTextShape(name);
    MaterialKeyword(st, "usemtl", name, library);
    MaterialKeyword(st, "g", name, library);
  }

  lemma MaterialKeyword(st: ReadState, keyword: string, name: string, library: Library)
    requires keyword == "usemtl" || keyword == "g"
    requires Strsep(Some(name + ['\n'] + []), SPACES) == Sep(Some(name), Some([]))
    ensures ReadStep(st, keyword + [' '] + (name + ['\n'] + []), library) == Some(st.(m := Lookup(st.mtls, name)))
  {
    KeywordsAvoid();
    CommandLine(keyword, name + ['\n'] + []);
    assert CommandOf(keyword) == MaterialCmd;
  }
}
