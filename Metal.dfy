/** The `metal.Metal` convenience wrapper: how a source string is opened, how
    the kernel name is found in it, which buffer factory a host value goes
    to, the byte sizes of empty buffers, `file_replace`'s text substitution,
    and the wrapper's own fields. */
module MetalWrapper {
  import opened Wrappers
  import opened PyStr
  import opened Dispatch
  import opened PyMetal

  /** The branch `Metal.__init__` takes on its `source` argument. */
  datatype SourceKind = LoadCompiled | ReadSourceFile | CompileText | NotOpened

  function ClassifySource(source: string): SourceKind {
    if Find(source, ".metallib") != -1 then LoadCompiled
    else if Find(source, ".metal") != -1 then ReadSourceFile
    else if Find(source, "kernel") != 0 then CompileText
    else NotOpened
  }

  /** The library the constructor opens, if any. */
  function SourceLibrary(source: string): Option<Library> {
    match ClassifySource(source)
    case LoadCompiled => Some(CompiledFile(source))
    case ReadSourceFile => Some(SourceFile(source))
    case CompileText => Some(SourceText(source))
    case NotOpened => None
  }

  /** ".metal" is a prefix of ".metallib". */
  lemma MetallibContainsMetal(s: string)
    requires Contains(s, ".metallib")
    ensures Contains(s, ".metal")
  {
    var i := Find(s, ".metallib");
    assert s[i..i + 6] == s[i..i + 9][..6];
    assert OccursAt(s, ".metal", i);
  }

  /** The three tests in order: a compiled library wins, then a source file;
      otherwise the text is compiled unless `find('kernel')` is 0, that is,
      unless it starts with "kernel" (a text without "kernel" is compiled). */
  lemma {:induction false} ClassifySourceSpec(s: string)
    ensures ClassifySource(s) == LoadCompiled <==> Contains(s, ".metallib")
    ensures ClassifySource(s) == ReadSourceFile <==> Contains(s, ".metal") && !Contains(s, ".metallib")
    ensures ClassifySource(s) == CompileText <==> !Contains(s, ".metal") && !StartsWith(s, "kernel")
    ensures ClassifySource(s) == NotOpened <==> !Contains(s, ".metal") && StartsWith(s, "kernel")
  {
    if Contains(s, ".metallib") {
      MetallibContainsMetal(s);
    }
    assert StartsWith(s, "kernel") <==> OccursAt(s, "kernel", 0);
  }

  /** Python's `\s` on `str`: the characters `str.isspace` accepts. */
  predicate IsSpace(c: char) {
    || ('\t' <= c <= '\r') || ('\U{1C}' <= c <= ' ')
    || c == '\U{85}' || c == '\U{A0}' || c == '\U{1680}'
    || ('\U{2000}' <= c <= '\U{200A}')
    || c == '\U{2028}' || c == '\U{2029}' || c == '\U{202F}' || c == '\U{205F}' || c == '\U{3000}'
  }

  /** `\w`, restricted to ASCII: letters, digits and the underscore. */
  predicate IsWordChar(c: char) {
    ('a' <= c <= 'z') || ('A' <= c <= 'Z') || ('0' <= c <= '9') || c == '_'
  }

  /** The length of the longest run of characters satisfying `p` from `j`:
      what a greedy `+` or `*` consumes. */
  function Run(s: string, j: nat, p: char -> bool): (n: nat)
    requires j <= |s|
    ensures j + n <= |s|
    ensures forall k {:trigger p(s[k])} :: j <= k < j + n ==> p(s[k])
    ensures j + n == |s| || !p(s[j + n])
    decreases |s| - j
  {
    if j == |s| || !p(s[j]) then 0 else 1 + Run(s, j + 1, p)
  }

  /** A run is determined by where it stops. */
  lemma {:induction false} RunExact(s: string, j: nat, p: char -> bool, n: nat)
    requires j + n <= |s|
    requires forall k {:trigger p(s[k])} :: j <= k < j + n ==> p(s[k])
    requires j + n == |s| || !p(s[j + n])
    ensures Run(s, j, p) == n
    decreases n
  {
    if n > 0 {
      assert p(s[j]);
      RunExact(s, j + 1, p, n - 1);
    }
  }

  /** The group of `kernel\s+void\s+(\w+)` matched at index `i`, if it matches
      there: the whitespace runs are whole runs (what follows them is not
      whitespace), and the name is the whole run of word characters. */
  function MatchAt(s: string, i: nat): (r: Option<string>)
    requires i <= |s|
    ensures r.Some? ==> r.value != [] && forall k {:trigger IsWordChar(r.value[k])} :: 0 <= k < |r.value| ==> IsWordChar(r.value[k])
  {
    if !OccursAt(s, "kernel", i) then None
    else
      var ws1 := Run(s, i + 6, IsSpace);
      var v := i + 6 + ws1;
      if ws1 == 0 || !OccursAt(s, "void", v) then None
      else
        var ws2 := Run(s, v + 4, IsSpace);
        var c := v + 4 + ws2;
        var n := Run(s, c, IsWordChar);
        if ws2 == 0 || n == 0 then None else Some(s[c..c + n])
  }

  /** Where `re.search` finds its match when started at `i`: the lowest index
      from `i` on where the pattern matches, or -1. */
  function FirstMatch(s: string, i: nat): (k: int)
    requires i <= |s|
    ensures k == -1 <==> forall j :: i <= j <= |s| ==> MatchAt(s, j).None?
    ensures k != -1 ==> i <= k <= |s| && MatchAt(s, k).Some?
    ensures k != -1 ==> forall j :: i <= j < k ==> MatchAt(s, j).None?
    decreases |s| - i
  {
    if MatchAt(s, i).Some? then i
    else if i == |s| then -1
    else FirstMatch(s, i + 1)
  }

  /** `re.search("kernel\s+void\s+(\w+)", source)[1]`, with `None` for no match. */
  function KernelName(source: string): Option<string> {
    var k := FirstMatch(source, 0);
    if k == -1 then None else MatchAt(source, k)
  }

  /** The leftmost match is the one found. */
  lemma {:induction false} FirstMatchFinds(s: string, i: nat, k: nat)
    requires i <= k <= |s|
    requires MatchAt(s, k).Some?
    requires forall j :: i <= j < k ==> MatchAt(s, j).None?
    ensures FirstMatch(s, i) == k
    decreases k - i
  {
    if i < k {
      FirstMatchFinds(s, i + 1, k);
    }
  }

  /** "kernel" cannot begin within a text free of it and run into a following
      "kernel": no proper suffix of the word is a prefix of it. */
  lemma NoKernelBefore(p: string, rest: string, j: nat)
    requires !Contains(p, "kernel")
    requires j < |p|
    ensures !OccursAt(p + "kernel" + rest, "kernel", j)
  {
    var s := p + "kernel" + rest;
    if j + 6 <= |p| {
      assert s[j..j + 6] == p[j..j + 6];
      assert !OccursAt(p, "kernel", j);
    } else {
      var o := |p| - j;
      assert s[j..j + 6][o] == s[|p|] == 'k';
      assert "kernel"[o] != 'k';
    }
  }

  /** `s[a..b]` is a non-empty run of whitespace. */
  predicate Spaces(s: string, a: nat, b: nat) {
    a < b <= |s| && forall k {:trigger IsSpace(s[k])} :: a <= k < b ==> IsSpace(s[k])
  }

  /** `name` stands at `c`: a non-empty run of word characters that no word
      character follows. */
  predicate NameAt(s: string, c: nat, name: string) {
    && OccursAt(s, name, c)
    && name != [] && (forall k {:trigger IsWordChar(name[k])} :: 0 <= k < |name| ==> IsWordChar(name[k]))
    && (c + |name| == |s| || !IsWordChar(s[c + |name|]))
  }

  /** A declaration at `i`: "kernel", a non-empty run of whitespace up to
      `v`, "void", a non-empty run of whitespace up to `c`, then `name`. */
  predicate DeclarationAt(s: string, i: nat, v: nat, c: nat, name: string) {
    && OccursAt(s, "kernel", i) && Spaces(s, i + 6, v)
    && OccursAt(s, "void", v) && Spaces(s, v + 4, c)
    && NameAt(s, c, name)
  }

  lemma SpacesOfRun(s: string, a: nat, n: nat)
    requires a <= |s| && n > 0 && Run(s, a, IsSpace) == n
    ensures Spaces(s, a, a + n)
  {
  }

  lemma NameOfRun(s: string, c: nat, n: nat)
    requires c <= |s| && n > 0 && Run(s, c, IsWordChar) == n
    ensures NameAt(s, c, s[c..c + n])
  {
    var name := s[c..c + n];
    forall k | 0 <= k < |name|
      ensures IsWordChar(name[k])
    {
      assert name[k] == s[c + k];
    }
  }

  /** The three runs a match at `i` consists of. */
  lemma MatchAtParts(s: string, i: nat) returns (v: nat, c: nat, n: nat)
    requires i <= |s|
    requires MatchAt(s, i).Some?
    ensures OccursAt(s, "kernel", i) && i + 6 < v && Run(s, i + 6, IsSpace) == v - (i + 6)
    ensures OccursAt(s, "void", v) && v + 4 < c <= |s| && Run(s, v + 4, IsSpace) == c - (v + 4)
    ensures n > 0 && Run(s, c, IsWordChar) == n && MatchAt(s, i).value == s[c..c + n]
  {
    v := i + 6 + Run(s, i + 6, IsSpace);
    c := v + 4 + Run(s, v + 4, IsSpace);
    n := Run(s, c, IsWordChar);
  }

  /** A match at `i` is a declaration there, its group being the name. */
  lemma MatchAtShape(s: string, i: nat) returns (v: nat, c: nat)
    requires i <= |s|
    requires MatchAt(s, i).Some?
    ensures DeclarationAt(s, i, v, c, MatchAt(s, i).value)
  {
    var n;
    v, c, n := MatchAtParts(s, i);
    SpacesOfRun(s, i + 6, v - (i + 6));
    SpacesOfRun(s, v + 4, c - (v + 4));
    NameOfRun(s, c, n);
  }

  /** `MatchAt` in terms of the three runs it measures. */
  lemma MatchAtFromRuns(s: string, i: nat, v: nat, c: nat, n: nat)
    requires OccursAt(s, "kernel", i) && i + 6 < v && OccursAt(s, "void", v)
    requires Run(s, i + 6, IsSpace) == v - (i + 6)
    requires v + 4 < c <= |s| && Run(s, v + 4, IsSpace) == c - (v + 4)
    requires n > 0 && Run(s, c, IsWordChar) == n
    ensures MatchAt(s, i) == Some(s[c..c + n])
  {
  }

  /** A whitespace run that stops at `b` is the run `Run` measures. */
  lemma RunOfSpaces(s: string, a: nat, b: nat)
    requires Spaces(s, a, b) && (b == |s| || !IsSpace(s[b]))
    ensures Run(s, a, IsSpace) == b - a
  {
    RunExact(s, a, IsSpace, b - a);
  }

  /** A name at `c` is the run of word characters `Run` measures there. */
  lemma RunOfName(s: string, c: nat, name: string)
    requires NameAt(s, c, name)
    ensures Run(s, c, IsWordChar) == |name| && s[c..c + |name|] == name
  {
    forall k | c <= k < c + |name|
      ensures IsWordChar(s[k])
    {
      assert s[k] == s[c..c + |name|][k - c];
    }
    RunExact(s, c, IsWordChar, |name|);
  }

  /** The runs `MatchAt` measures at a declaration end where its parts do. */
  lemma DeclarationRuns(s: string, i: nat, v: nat, c: nat, name: string)
    requires DeclarationAt(s, i, v, c, name)
    ensures Run(s, i + 6, IsSpace) == v - (i + 6)
    ensures Run(s, v + 4, IsSpace) == c - (v + 4)
    ensures Run(s, c, IsWordChar) == |name| && s[c..c + |name|] == name
  {
    assert s[v] == s[v..v + 4][0] == 'v';
    RunOfSpaces(s, i + 6, v);
    assert s[c] == s[c..c + |name|][0] == name[0] && IsWordChar(name[0]);
    RunOfSpaces(s, v + 4, c);
    RunOfName(s, c, name);
  }

  /** A declaration at `i` is a match there, with its name as the group:
      whatever its whitespace, the match and the name are determined. */
  lemma DeclarationMatches(s: string, i: nat, v: nat, c: nat, name: string)
    requires DeclarationAt(s, i, v, c, name)
    ensures MatchAt(s, i) == Some(name)
  {
    DeclarationRuns(s, i, v, c, name);
    MatchAtFromRuns(s, i, v, c, |name|);
  }

  /** The name found is the group of the leftmost declaration. */
  lemma KernelNameShape(s: string) returns (i: nat, v: nat, c: nat)
    requires KernelName(s).Some?
    ensures i <= |s| && DeclarationAt(s, i, v, c, KernelName(s).value)
    ensures forall j :: 0 <= j < i ==> MatchAt(s, j).None?
  {
    i := FirstMatch(s, 0);
    v, c := MatchAtShape(s, i);
  }

  /** Whitespace runs written out: `ws != []` and every character space. */
  predicate Blank(ws: string) {
    ws != [] && forall k {:trigger IsSpace(ws[k])} :: 0 <= k < |ws| ==> IsSpace(ws[k])
  }

  /** The parts `p`, "kernel", `ws1`, "void", `ws2`, `name`, `tail` put
      together declare `name` right after `p`. */
  lemma DeclarationOfParts(p: string, ws1: string, ws2: string, name: string, tail: string)
    requires Blank(ws1) && Blank(ws2)
    requires name != [] && forall k {:trigger IsWordChar(name[k])} :: 0 <= k < |name| ==> IsWordChar(name[k])
    requires tail == [] || !IsWordChar(tail[0])
    ensures var i := |p|;
      var v := i + 6 + |ws1|;
      DeclarationAt(p + "kernel" + ws1 + "void" + ws2 + name + tail, i, v, v + 4 + |ws2|, name)
  {
    var s := p + "kernel" + ws1 + "void" + ws2 + name + tail;
    var i := |p|;
    var v := i + 6 + |ws1|;
    var c := v + 4 + |ws2|;
    assert s[i..i + 6] == "kernel";
    assert s[v..v + 4] == "void";
    assert s[c..c + |name|] == name;
    forall k | i + 6 <= k < v
      ensures IsSpace(s[k])
    {
      assert s[k] == ws1[k - (i + 6)];
    }
    forall k | v + 4 <= k < c
      ensures IsSpace(s[k])
    {
      assert s[k] == ws2[k - (v + 4)];
    }
    assert c + |name| < |s| ==> s[c + |name|] == tail[0];
  }

  /** The name in a declaration is found when no "kernel" comes before it and
      what follows the name is not a word character, whatever whitespace
      separates the words. */
  lemma DeclaredKernelName(p: string, ws1: string, ws2: string, name: string, tail: string)
    requires !Contains(p, "kernel")
    requires Blank(ws1) && Blank(ws2)
    requires name != [] && forall k {:trigger IsWordChar(name[k])} :: 0 <= k < |name| ==> IsWordChar(name[k])
    requires tail == [] || !IsWordChar(tail[0])
    ensures KernelName(p + "kernel" + ws1 + "void" + ws2 + name + tail) == Some(name)
  {
    var s := p + "kernel" + ws1 + "void" + ws2 + name + tail;
    var i := |p|;
    var rest := ws1 + "void" + ws2 + name + tail;
    assert s == p + "kernel" + rest;
    forall j | 0 <= j < i
      ensures MatchAt(s, j).None?
    {
      NoKernelBefore(p, rest, j);
    }
    DeclarationOfParts(p, ws1, ws2, name, tail);
    DeclarationMatches(s, i, i + 6 + |ws1|, i + 10 + |ws1| + |ws2|, name);
    FirstMatchFinds(s, 0, i);
  }

  /** A text without the first character of `sub` does not contain `sub`. */
  lemma NoFirstChar(s: string, sub: string)
    requires sub != []
    requires sub[0] !in s
    ensures !Contains(s, sub)
  {
    forall j | 0 <= j <= |s|
      ensures !OccursAt(s, sub, j)
    {
      if j + |sub| <= |s| {
        assert s[j..j + |sub|][0] == s[j] != sub[0];
      }
    }
  }

  /** The beginning of the Monte Carlo example's kernel source. */
  const MonteCarloHead: string := "\n    #include <metal_stdlib>" + "\n    using namespace metal;" + "\n\n    "

  /** Its kernel name is `monte_carlo`. */
  lemma MonteCarloKernelName(tail: string)
    requires tail == [] || !IsWordChar(tail[0])
    ensures KernelName(MonteCarloHead + "kernel" + " " + "void" + " " + "monte_carlo" + tail) == Some("monte_carlo")
  {
    assert 'k' !in "\n    #include <metal_stdlib>";
    assert 'k' !in "\n    using namespace metal;";
    assert 'k' !in "\n\n    ";
    NoFirstChar(MonteCarloHead, "kernel");
    DeclaredKernelName(MonteCarloHead, " ", " ", "monte_carlo", tail);
  }

  /** The exceptions `Metal.__init__` can raise after opening the device:
      `TypeError` when no name is given and the pattern does not match, and
      `AttributeError` when no library was opened before `getfn`. */
  datatype InitError = NoKernelDeclaration | NoLibrary

  /** The function `Metal.__init__` looks up, or the error it raises. */
  function OpenKernel(source: string, funcName: Option<string>): Result<KernelFunction, InitError> {
    var lib := SourceLibrary(source);
    match funcName
    case Some(name) =>
      if lib.None? then Err(NoLibrary) else Ok(KernelFunction(lib.value, name))
    case None =>
      match KernelName(source)
      case None => Err(NoKernelDeclaration)
      case Some(name) =>
        if lib.None? then Err(NoLibrary) else Ok(KernelFunction(lib.value, name))
  }

  /** A given name is used verbatim; otherwise the first declared kernel's;
      and the errors arise exactly when the name or the library is missing. */
  lemma OpenKernelSpec(source: string, funcName: Option<string>)
    ensures OpenKernel(source, funcName).Ok? <==>
      SourceLibrary(source).Some? && (funcName.Some? || KernelName(source).Some?)
    ensures funcName.None? && KernelName(source).None? ==> OpenKernel(source, funcName) == Err(NoKernelDeclaration)
    ensures OpenKernel(source, funcName).Ok? ==>
      && OpenKernel(source, funcName).value.library == SourceLibrary(source).value
      && OpenKernel(source, funcName).value.name ==
           (if funcName.Some? then funcName.value else KernelName(source).value)
  {
  }

  /** The host values `buffer` tells apart: `type(data) is int`, `is float`,
      a `bool` (whose type is not `int`), and any other object, by the module
      that defines its type. */
  datatype HostValue =
    | PyInt(i: int)
    | PyFloat(x: real)
    | PyBool(b: bool)
    | PyObject(typeModule: string, typeName: string)

  /** The `PyMetal` factory a host value is handed to. */
  datatype BufferRequest = NumpyBuffer(data: HostValue) | IntBuffer(i: int) | FloatBuffer(x: real)

  /** `buffer(data)`; `None` when no branch applies. */
  function BufferFor(data: HostValue): Option<BufferRequest> {
    if data.PyObject? && data.typeModule == "numpy" then Some(NumpyBuffer(data))
    else if data.PyInt? then Some(IntBuffer(data.i))
    else if data.PyFloat? then Some(FloatBuffer(data.x))
    else None
  }

  /** Numpy values, ints and floats get a buffer, carrying the value itself;
      everything else, `bool` included, gets none. */
  lemma BufferForSpec(data: HostValue)
    ensures BufferFor(data).Some? <==> (data.PyObject? && data.typeModule == "numpy") || data.PyInt? || data.PyFloat?
    ensures data.PyBool? ==> BufferFor(data) == None
    ensures data.PyInt? ==> BufferFor(data) == Some(IntBuffer(data.i))
    ensures data.PyFloat? ==> BufferFor(data) == Some(FloatBuffer(data.x))
    ensures data.PyObject? && data.typeModule == "numpy" ==> BufferFor(data) == Some(NumpyBuffer(data))
  {
  }

  /** `numpy.dtype(numpy.int32).itemsize` and `numpy.dtype(numpy.float32).itemsize`. */
  const Int32ItemSize: nat := 4
  const Float32ItemSize: nat := 4

  /** The byte length `empty_int(n)` asks for. */
  function EmptyIntSize(n: nat): nat {
    n * Int32ItemSize
  }

  /** The byte length `empty_float(n)` asks for. */
  function EmptyFloatSize(n: nat): nat {
    n * Float32ItemSize
  }

  /** Both hold exactly n four-byte elements, and `syncbuffer` without a
      length then reports all of them. */
  lemma EmptySizesHoldElements(n: nat)
    ensures EmptyIntSize(n) == 4 * n && EmptyFloatSize(n) == 4 * n
    ensures EmptyIntSize(n) / Int32ItemSize == n && EmptyIntSize(n) % Int32ItemSize == 0
    ensures SyncRange(EmptyFloatSize(n), 0, None) == NSRange(0, 4 * n)
  {
  }

  /** What `file_replace` writes to `file_out` and what it returns. */
  datatype ReplaceOutcome = ReplaceOutcome(written: string, fileOut: string, kernelName: string)

  /** `file_replace(file_in, file_out, search, rpl)` on the text read from
      `file_in`; the name is looked for before anything is written. */
  function FileReplace(text: string, fileOut: string, search: string, rpl: string): Result<ReplaceOutcome, InitError> {
    match KernelName(text)
    case None => Err(NoKernelDeclaration)
    case Some(name) => Ok(ReplaceOutcome(Replace(text, search, rpl), fileOut, name))
  }

  /** Nothing is written unless a kernel is declared; what is written is the
      text with every occurrence replaced, the text itself when `search` does
      not occur; and the name is the one in the original text. */
  lemma FileReplaceSpec(text: string, fileOut: string, search: string, rpl: string)
    ensures FileReplace(text, fileOut, search, rpl).Ok? <==> KernelName(text).Some?
    ensures FileReplace(text, fileOut, search, rpl).Ok? ==>
      && FileReplace(text, fileOut, search, rpl).value.written == Replace(text, search, rpl)
      && FileReplace(text, fileOut, search, rpl).value.fileOut == fileOut
      && FileReplace(text, fileOut, search, rpl).value.kernelName == KernelName(text).value
    ensures FileReplace(text, fileOut, search, rpl).Ok? && search != [] && !Contains(text, search) ==>
      FileReplace(text, fileOut, search, rpl).value.written == text
  {
    if search != [] && !Contains(text, search) {
      ReplaceAbsent(text, search, rpl);
    }
  }

  /** An `MTLCommandQueue`, opaque. */
  datatype CommandQueue = CommandQueue(id: nat)

  /** The `Metal` object: the kernel function, and the queue, command buffer
      and buffers of the last `set_buffers`. */
  class Metal {
    var fn: KernelFunction
    var cqueue: Option<CommandQueue>
    var cbuffer: CommandBuffer?
    var bufferList: Option<seq<Buffer>>

    /** `Metal(source, func_name)`; it exists only when `__init__` returns. */
    constructor (source: string, funcName: Option<string>)
      requires OpenKernel(source, funcName).Ok?
      ensures fn == OpenKernel(source, funcName).value
      ensures cqueue == None && cbuffer == null && bufferList == None
    {
      fn := OpenKernel(source, funcName).value;
      cqueue, cbuffer, bufferList := None, null, None;
    }

    /** `set_buffers(buffers, threads)`: a new queue (`queue`, from the device)
      and command buffer, the buffers recorded, and the compute pass encoded
      with the pipeline state for `fn` answering `limits`. */
    method SetBuffers(buffers: seq<Buffer>, threads: Option<seq<nat>>, queue: CommandQueue, limits: ThreadLimits)
      returns (outcome: Result<Sizing, PlanError>)
      modifies this
      ensures fn == old(fn)
      ensures cqueue == Some(queue) && bufferList == Some(buffers)
      ensures cbuffer != null && fresh(cbuffer)
      ensures outcome == PlanCompute(buffers, threads, None, limits).sizing
      ensures cbuffer.passes ==
        if outcome.Ok? then [ComputePass(Some(PipelineState(fn, limits)), Bindings(buffers), Some(outcome.value))]
        else []
    {
      var cb := new CommandBuffer();
      cqueue, cbuffer := Some(queue), cb;
      bufferList := Some(buffers);
      var _, r := EnqueueCompute(cb, fn, buffers, threads, None, limits);
      outcome := r;
    }
  }
}
