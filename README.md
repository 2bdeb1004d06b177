# python-metal: the dispatch planner and its wrapper, in Dafny

`runmetal.PyMetal` is a thin pyobjc layer over Apple's Metal: it opens a device and a library, builds a compute pipeline, binds buffers and dispatches threads. `metal.Metal` is a convenience class on top of it. Almost everything these classes do is a call into Metal. What they decide for themselves is modelled here:

- **Dispatch** (`Dispatch.dfy`) is the planner of `enqueue_compute` and `runThread`, written as pure values.
  - Buffer *i* is bound to argument slot *i* at offset 0.
  - `bufmax` is the longest buffer length, unless `iters` overrides it.
  - The inferred 1-D mode uses the thread group `(w, max(1, int(maxTotal / w)), 1)` and the grid `(max(1, ceil(bufmax / w)), 1, 1)`.
  - The explicit 2-D mode uses the grid `(threads[0], threads[1], 1)`.
  - `getmtlsize` turns an `int` or a mapping into an `MTLSize`.
  - Python's `int(a / b)` is true division followed by truncation, and is written that way.
- **PyMetal** (`PyMetal.dfy`) holds the stateful parts.
  - A command buffer and a compute encoder are classes that record what is encoded in them.
  - `enqueue_compute` and `runThread` are methods whose binding loop updates the encoder step by step. Each is proved to encode exactly what the planner computes.
  - Also here: `setopt`, the `max…`/`…Config` name filters of `maxvalues`/`configs`, and the range `syncbuffer` reports.
- **MetalWrapper** (`Metal.dfy`) covers `metal.Metal`:
  - how a source string is opened (compiled library, source file or source text);
  - the scanner for `kernel\s+void\s+(\w+)` that picks the kernel name;
  - which `PyMetal` buffer factory `buffer` hands a value to;
  - the byte sizes of `empty_int`/`empty_float`;
  - the text `file_replace` writes and the name it returns;
  - the fields of the `Metal` object through `__init__` and `set_buffers`.
- **PyStr** (`PyStr.dfy`) models the Python `str` operations used above: `find`, `in`, `startswith`, `endswith`, `count` and `replace`, all with Python's edge cases, including the empty pattern.
- **Wrappers** (`Wrappers.dfy`) defines `Option` and `Result`. `None` and the exceptions the code raises are modelled with them: `ZeroDivisionError`, the failing `assert len(threads) >= 2`, and the `TypeError`/`AttributeError` of `Metal.__init__`.

Whatever the device answers is passed in as a parameter:
- `threadExecutionWidth` and `maxTotalThreadsPerThreadgroup`, as `ThreadLimits`;
- the `dir()` listing and the query results of `maxvalues`/`configs`;
- the new command queue.

## Model

| member | source | states |
|---|---|---|
| Dispatch.GetMtlSize | metal/runmetal/pymetal.py:181-184 | an `int` n gives `(n, 1, 1)`; a mapping succeeds exactly when its keys are among width/height/depth and yields the fields supplied, a field left out being 0; anything else is a `TypeError` |
| Dispatch.GetMtlSizeRoundTrip | metal/runmetal/pymetal.py:181-184 | the three fields of a size give back that size, and `n` means the same as `{"width": n, "height": 1, "depth": 1}` |
| Dispatch.TruncatedQuotient | metal/runmetal/pymetal.py:206 | `int(a / b)` is the q with q·b ≤ a < (q+1)·b |
| Dispatch.TruncatedQuotientIsDiv | metal/runmetal/pymetal.py:206 | true division truncated equals integer division |
| Dispatch.GroupHeight | metal/runmetal/pymetal.py:206 | the inferred group height is at least 1 |
| Dispatch.GroupHeightBounds | metal/runmetal/pymetal.py:205-206 | the height is 1 when maxTotal < 2w, and maxTotal div w when maxTotal ≥ w, so that w·h ≤ maxTotal < w·(h+1) |
| Dispatch.GroupCountIsCeiling | metal/runmetal/pymetal.py:211 | the grid width is 1 for bufmax 0 and ⌈bufmax / w⌉ otherwise |
| Dispatch.GroupCountCovers | metal/runmetal/pymetal.py:211-212 | g ≥ 1, g·w ≥ bufmax, g = 1 when bufmax = 0, and (g−1)·w < bufmax otherwise |
| Dispatch.BindingsInOrder | metal/runmetal/pymetal.py:196-197 | one binding per buffer, the i-th being buffer i at offset 0 and index i |
| Dispatch.ArgumentTableOfBindings | metal/runmetal/pymetal.py:196-197 | after the loop the encoder's slots are exactly 0..n−1, slot i holding buffer i at offset 0 |
| Dispatch.MaxLength | metal/runmetal/pymetal.py:195-199 | `bufmax` bounds every length, is 0 for no buffers, and is some buffer's length otherwise |
| Dispatch.IterationsOverride | metal/runmetal/pymetal.py:200-201 | `iters`, when given, replaces `bufmax` whatever its value |
| Dispatch.InferredMode | metal/runmetal/pymetal.py:203-215 | without `threads` the group is `(w, max(1, maxTotal div w), 1)`, built by `getmtlsize` from its fields, and the grid is `(g, 1, 1)` with g the ceiling of count / w, covering count |
| Dispatch.ExplicitMode | metal/runmetal/pymetal.py:216-225 | fewer than two extents fail the assertion; otherwise the grid is `(t[0], t[1], 1)`, independent of buffers, `iters` and further extents; w = 0 divides by zero |
| Dispatch.ExplicitHeightAgreement | metal/runmetal/pymetal.py:221-223 | the explicit mode's true-division height equals the inferred mode's floored height iff w divides maxTotal and maxTotal ≥ w |
| Dispatch.ThreadMode | metal/runmetal/pymetal.py:262-268 | `runThread` succeeds exactly when `getmtlsize(threads)` does, with the inferred group and that grid |
| Dispatch.Width32Example | metal/runmetal/pymetal.py:203-212 | width 32, 256 threads per group, 1000 items: groups (32, 8, 1) and grid (32, 1, 1) |
| Dispatch.InferredGridThreads | metal/runmetal/pymetal.py:211-215 | the inferred grid, a count of groups, is passed to `dispatchThreads` as a count of threads: for w ≥ 2 and at least two items it launches fewer threads than items |
| PyMetal.CommandBuffer.constructor | metal/runmetal/pymetal.py:177 | a new command buffer holds no passes |
| PyMetal.ComputeEncoder.constructor | metal/runmetal/pymetal.py:193 | a new encoder belongs to its command buffer and has nothing set |
| PyMetal.ComputeEncoder.SetComputePipelineState | metal/runmetal/pymetal.py:194 | sets the pipeline state, nothing else |
| PyMetal.ComputeEncoder.SetBuffer | metal/runmetal/pymetal.py:197 | appends one binding, nothing else |
| PyMetal.ComputeEncoder.DispatchThreads | metal/runmetal/pymetal.py:215 | records the grid and group, nothing else |
| PyMetal.ComputeEncoder.EndEncoding | metal/runmetal/pymetal.py:227 | appends the encoded pass to the command buffer |
| PyMetal.BindBuffers | metal/runmetal/pymetal.py:195-199 | the loop leaves exactly the planner's bindings on the encoder and returns the maximum length |
| PyMetal.EnqueueCompute | metal/runmetal/pymetal.py:186-227 | the encoder has the pipeline for `func`, the planner's bindings and sizes; on success one pass is added to the command buffer, on an error none |
| PyMetal.RunThread | metal/runmetal/pymetal.py:244-273 | the same against `runThread`'s plan: the inferred group and `getmtlsize(threads)` as the grid |
| PyMetal.SetterNameInjective | metal/runmetal/pymetal.py:25 | distinct option names look up distinct setters |
| PyMetal.OptionTarget.constructor | metal/runmetal/pymetal.py:23 | a target starts with no setter calls |
| PyMetal.OptionTarget.CallSetter | metal/runmetal/pymetal.py:28 | a setter call is appended to the target's calls |
| PyMetal.SetOpt | metal/runmetal/pymetal.py:23-32 | returns the same target, whose calls grow by exactly the setter calls for the options it has setters for, in order |
| PyMetal.SetterCallsSpec | metal/runmetal/pymetal.py:24-31 | a call is made iff some option's `"set" + k + "_"` is an attribute, with that option's value |
| PyMetal.UnknownOptionIgnored | metal/runmetal/pymetal.py:26-31 | an option without a setter changes nothing, wherever it stands |
| PyMetal.MaxValues | metal/runmetal/pymetal.py:34-39 | every name starting with "max" and not ending in "_" is a key with the prefix stripped, mapped to its query, and there are no other keys |
| PyMetal.Configs | metal/runmetal/pymetal.py:41-46 | every name ending in "Config" is a key with the suffix stripped, mapped to its query, and there are no other keys |
| PyMetal.SyncRange | metal/runmetal/pymetal.py:156-161 | the range starts at `start`; an explicit length is passed through, and the default one ends at the buffer's end |
| MetalWrapper.MetallibContainsMetal | metal/metal.py:14-17 | a source containing ".metallib" contains ".metal" |
| MetalWrapper.ClassifySourceSpec | metal/metal.py:14-19 | compiled iff ".metallib" occurs; source file iff ".metal" but not ".metallib"; text compiled iff no ".metal" and it does not start with "kernel"; nothing opened iff no ".metal" and it starts with "kernel" |
| MetalWrapper.Run | metal/metal.py:24 | a greedy `+` run: every character in it satisfies the class and the next one does not |
| MetalWrapper.MatchAt | metal/metal.py:24 | a match's group is a non-empty run of word characters |
| MetalWrapper.MatchAtShape | metal/metal.py:24 | a match at i is a declaration there: "kernel", non-empty whitespace, "void", non-empty whitespace, then the group, a maximal non-empty run of word characters |
| MetalWrapper.FirstMatch | metal/metal.py:24 | the leftmost index where the pattern matches, or -1 if it matches nowhere |
| MetalWrapper.FirstMatchFinds | metal/metal.py:24 | the search stops at the first matching index |
| MetalWrapper.DeclarationMatches | metal/metal.py:24 | conversely, such a declaration at i, with any non-empty whitespace, matches there with its name as the group |
| MetalWrapper.KernelNameShape | metal/metal.py:23-24 | the name found is the group of a declaration at some index, and the pattern matches at no earlier index |
| MetalWrapper.DeclarationOfParts | metal/metal.py:24 | "kernel", whitespace, "void", whitespace and a word-character name, not followed by a word character, form a declaration |
| MetalWrapper.DeclaredKernelName | metal/metal.py:23-24 | with no "kernel" before a declaration, whatever its whitespace, the name found is that declaration's |
| MetalWrapper.MonteCarloKernelName | metal/monte_carlo_metal.py:7-11 | the Monte Carlo example's kernel name is `monte_carlo` |
| MetalWrapper.OpenKernelSpec | metal/metal.py:11-24 | the function is found iff a library was opened and a name is given or declared; a given name is used verbatim, otherwise the declared one; no name and no declaration is the `TypeError` |
| MetalWrapper.BufferForSpec | metal/metal.py:44-50 | numpy values, `int` and `float` get their buffer factory with the value; anything else, `bool` included, gets `None` |
| MetalWrapper.EmptySizesHoldElements | metal/metal.py:58-65 | `empty_int(n)` and `empty_float(n)` ask for 4·n bytes, exactly n elements, all reported by a default `syncbuffer` |
| MetalWrapper.FileReplaceSpec | metal/metal.py:38-42 | fails, writing nothing, iff no kernel is declared; writes the text with every occurrence replaced, the text itself when `search` is absent; returns `file_out` and the name from the original text |
| MetalWrapper.Metal.constructor | metal/metal.py:11-26 | the object holds the opened kernel function, and no queue, command buffer or buffer list |
| MetalWrapper.Metal.SetBuffers | metal/metal.py:67-70 | installs the new queue and a fresh command buffer, records exactly the buffers passed, and encodes the planned pass, which is the only one in the command buffer when planning succeeds |
| PyStr.FindFrom | metal/metal.py:14-18 | `find` from an index: -1 iff no occurrence, otherwise the lowest occurrence |
| PyStr.Find | metal/metal.py:14-18 | `find`: -1 iff no occurrence, otherwise the lowest occurrence |
| PyStr.ReplaceAbsent | metal/metal.py:41 | replacing a string that does not occur changes nothing |
| PyStr.ReplaceIdentity | metal/metal.py:41 | replacing a string by itself changes nothing |
| PyStr.ReplaceLength | metal/metal.py:41 | the result's length is the text's plus `count` times the difference in pattern lengths |

## Left out

- Every Metal and pyobjc call is foreign. `opendevice`, `lsdev`, library compilation and loading, pipeline-state creation, `start_process`/`wait_process` (hence `Metal.run`), `buf2numpy`/`buf2byte` (hence `Metal.get_buffer`) and `emptybuffer` are modelled only by what they hand back. A library is a record of where it came from, and a pipeline state is the function plus the two numbers the planner asks of it.
- A library that fails to compile or load (`self.lib` set to `None`, then `getfn` on it) is not modelled, because compilation is foreign.
- The byte copies of `numpybuffer`, `bytesbuffer`, `intbuffer`, `uintbuffer` and `floatbuffer` are not modelled. `MetalWrapper.BufferFor` only chooses the factory.
- `float_buf`/`int_buf` are not modelled. Their `numpy.array` conversion is numpy's behaviour, and the result always reaches the numpy branch of `buffer`.
- `Dispatch.TruncatedQuotient` and `Dispatch.GroupCount` use exact real division. The rounding of Python floats is not modelled: it differs only for integers beyond 2^53.
- `Dispatch.ComputeSizing` keeps the explicit-mode group height `maxTotal / w` as an unevaluated quotient, because Python makes it a float. What pyobjc makes of a float `MTLSize` field is not modelled.
- `NSUInteger` is 64 bits wide, but the sizes here are unbounded naturals. Negative or non-integer sizes are not modelled.
- Only the arguments passed to `dispatchThreads:threadsPerThreadgroup:` are modelled, not how Metal executes them. Metal reads the grid as a number of threads, so `Dispatch.GroupCountCovers` states the coverage the planner's arithmetic gives, counted in groups of `w`. `Dispatch.InferredGridThreads` states that the threads actually requested fall short of the items.
- `label` arguments (`setLabel_`) and all logging are debugging output and are not modelled.
- `runThread2d` is not modelled. It calls `getmtlsize` with three positional arguments, which that method does not accept.
- `emptytexture`, `enqueue_render`, `enqueue_blit`, `device2str` and `logmethods` are not modelled: they are stubs or listing helpers.
- `compile` runs a subprocess and is not modelled.
- `Metal.rand` (numba-parallel random numbers) is not modelled.
- File reads and writes are not modelled. This covers `openlibrary`'s `filename` variants (path, file object, list) and the files of `file_replace`: `MetalWrapper.FileReplace` takes the text read and returns the text written.
- `getqueue` is modelled without options, as `set_buffers` calls it. The queue is a parameter, and the command buffer is a fresh object.
- MetalWrapper.MatchAt: `\w` covers ASCII letters, digits and `_` only. Python's other Unicode word characters are not modelled. `\s` is the full set `str.isspace` accepts.
- MetalWrapper.Metal.constructor: it requires that `OpenKernel` succeeds, because an object exists only when `__init__` returns. The raised exceptions are the `Err` cases of `OpenKernel`. The device is opened unconditionally and is not modelled.
- MetalWrapper.Metal.SetBuffers: it takes a sequence of buffers. The default `buffers=None`, on which `enumerate` raises `TypeError`, is not modelled.
- Python's `dict` is modelled as the ordered sequence of its items in `PyMetal.SetOpt`, and as the final map in `PyMetal.MaxValues`/`PyMetal.Configs`. `dir()` lists each name once, so no key is written twice.
