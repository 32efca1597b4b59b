# Fibonacci examples and web-server routing, modelled in Dafny

This project models three small sequential pieces of the `rust-notes` examples:

- `examples/fibonacci-recursion.rs`: `fibonacci(n: u64) -> u64` by direct recursion, and a `main` that prints F(0) .. F(9).
- `examples/fibonacci-space-optimized.rs`: the same function as a `while` loop over two running variables `a`, `b`, and the same `main`.
- `examples/web-server/src/bin/main.rs`: the routing inside `handle_connection`. A 512-byte request buffer is classified by the two byte prefixes `GET / HTTP/1.1\r\n` and `GET /sleep HTTP/1.1\r\n`. That gives a status line, a page and whether to sleep first. The response is the status line followed by the page's contents.

Files:

- `rust.dfy` (module `Rust`): `u64` as a newtype of `int`. It also has `u64` addition as a debug build performs it: an overflow is a panic, not a wrap-around. Panics are an explicit outcome `Run<T> = Done(value) | Panicked(panic)`.
- `fibonacci.dfy` (module `FibonacciNumbers`): the Fibonacci numbers `Fib` over unbounded naturals. This is the specification both Rust versions are checked against. The module also proves that the sequence is monotone and positive, and that F(93) < 2^64 ≤ F(94).
- `fibonacci_recursion.dfy` (module `FibonacciRecursion`): the recursive `u64` function and its `main`.
- `fibonacci_space_optimized.dfy` (module `FibonacciSpaceOptimized`): the loop as a method with loop invariants. It is proved to return exactly what the recursive model returns, for every `u64` argument, including the arguments that overflow. The recursive model assumes an unbounded call stack; see "## Left out". Its `main` is modelled too.
- `web_server.dfy` (module `WebServer`): the routing decision and the response as pure functions of the buffer and of a map that stands for the file system.

Both Fibonacci functions are total here. For `n <= 93` they return `Done(F(n))`. For every larger `n` they panic with an addition overflow. For the recursive version this assumes an unbounded call stack. It evaluates `fibonacci(n - 2)` first, so with such a stack it panics in its first sum that exceeds 2^64. A real stack is exhausted first for large `n`; see "## Left out". The loop panics at `i == 94`, when it computes `c = a + b`.

## Model

| member | source | states |
|---|---|---|
| `FibonacciNumbers.FibMonotone` | examples/fibonacci-recursion.rs:3-8 | The Fibonacci numbers never decrease: m <= n implies F(m) <= F(n). |
| `FibonacciNumbers.FibPositive` | examples/fibonacci-recursion.rs:3-8 | F(n) >= 1 for every n >= 1. |
| `FibonacciNumbers.AdvanceFib` | examples/fibonacci-space-optimized.rs:14-16 | Start the update `(a, b) := (b, a + b)` on F(k), F(k+1) and run it s times: `a` becomes F(k+s). This is the loop's update. Here it only computes the F(93) and F(94) checkpoints behind `U64Boundary`. The loop method's invariant speaks of `Fib` directly. |
| `Rust.CheckedAdd` | examples/fibonacci-recursion.rs:7 | `u64` addition in a debug build: the exact sum when it is below 2^64, otherwise an `AddOverflow` panic. The same `+` is used at examples/fibonacci-space-optimized.rs:14. |
| `FibonacciNumbers.U64Boundary` | examples/fibonacci-recursion.rs:7 | F(93) < 2^64 <= F(94). |
| `FibonacciNumbers.FitsU64` | examples/fibonacci-recursion.rs:7 | F(n) fits in a `u64` if and only if n <= 93. |
| `FibonacciRecursion.Fibonacci` | examples/fibonacci-recursion.rs:3-8 | The recursive `u64` function returns a value exactly when F(n) < 2^64, and that value is F(n). Otherwise it panics with an addition overflow, given an unbounded call stack. The `n - 2` and `n - 1` it recurses on are always valid `u64` values below `n`. |
| `FibonacciRecursion.BaseCases` | examples/fibonacci-recursion.rs:4-6 | fibonacci(0) returns 0 and fibonacci(1) returns 1. |
| `FibonacciRecursion.Recurrence` | examples/fibonacci-recursion.rs:7 | For n >= 2, a result means both recursive calls returned, and the result is their sum. |
| `FibonacciRecursion.NoOverflowUpTo93` | examples/fibonacci-recursion.rs:7 | The recursion stays inside `u64` for exactly the arguments 0 .. 93. |
| `FibonacciRecursion.ResultsGrow` | examples/fibonacci-recursion.rs:3-8 | If fibonacci(n) returns, then every fibonacci(m) with m <= n returns a value that is no larger. The result is positive for n >= 1. |
| `FibonacciRecursion.PrintedValues` | examples/fibonacci-recursion.rs:10-17 | `main` prints, for i in 0..10, the values 0 1 1 2 3 5 8 13 21 34. |
| `FibonacciSpaceOptimized.Fibonacci` | examples/fibonacci-space-optimized.rs:3-21 | The loop returns exactly what the recursive model returns, for every n; that model assumes an unbounded stack. That is F(n) when n <= 93 and an addition-overflow panic otherwise. n == 0 returns 0 before the loop. For 1 <= n <= 93 the loop body runs n - 1 times. |
| `FibonacciSpaceOptimized.PrintedValues` | examples/fibonacci-space-optimized.rs:23-30 | `main` prints the same ten values as the recursive version. |
| `WebServer.StartsWith` | examples/web-server/src/bin/main.rs:44-46 | `buffer.starts_with(prefix)` holds exactly when the prefix is no longer than the buffer and agrees with it byte for byte. |
| `WebServer.PrefixesDisjoint` | examples/web-server/src/bin/main.rs:41-46 | No buffer starts with both `GET / HTTP/1.1\r\n` and `GET /sleep HTTP/1.1\r\n`. |
| `WebServer.Classify` | examples/web-server/src/bin/main.rs:44-51 | The first 200 branch is taken exactly when the buffer starts with the `GET /` prefix. The sleeping branch is taken exactly when it starts with the `/sleep` prefix. The 404 branch is taken exactly when it starts with neither. |
| `WebServer.DecisionFor` | examples/web-server/src/bin/main.rs:44-51 | Only the `/sleep` branch sleeps. The status is 200 exactly for the two matching branches. The page is `assets/hello.html` exactly when the status is 200. |
| `WebServer.Decide` | examples/web-server/src/bin/main.rs:41-51 | `GET /` gives (`HTTP/1.1 200 OK\r\n\r\n`, `assets/hello.html`) with no sleep. `GET /sleep` gives the same pair and sleeps. Anything else gives (`HTTP/1.1 404 Not Found\r\n\r\n`, `assets/404.html`). |
| `WebServer.BranchOrderIrrelevant` | examples/web-server/src/bin/main.rs:41-46 | Testing the two prefixes in the opposite order classifies every buffer the same way. |
| `WebServer.DecidedByRequestLine` | examples/web-server/src/bin/main.rs:37-51 | Two 512-byte buffers that agree on their first 21 bytes get the same decision. |
| `WebServer.HandleConnection` | examples/web-server/src/bin/main.rs:44-54 | The handler panics exactly when the chosen file is missing. Otherwise the response begins with the status line and the rest is the file's contents. When it returns, it slept exactly when the buffer starts with the `/sleep` prefix. The sleep comes before the file read, so a `/sleep` request also sleeps when it then panics; that sleep is `Decide(buffer).sleeps`. |
| `WebServer.ResponseRoundTrip` | examples/web-server/src/bin/main.rs:53-54 | Every response the handler writes splits back into the status line it chose and the contents of the file it read. |

## Left out

- `examples/web-server/src/lib.rs` (`ThreadPool`, `Worker`, `Message`, its `Drop`): not modelled. Its substance is concurrency: OS threads, an `mpsc` channel shared behind `Arc<Mutex<_>>`, blocking `recv` and `join`. None of it can be expressed faithfully as sequential Dafny.
- `main` of the web server (examples/web-server/src/bin/main.rs:10-32): binding a TCP listener, accepting two connections and handing them to the pool. This is I/O and concurrency.
- `stream.read` in `handle_connection`: the buffer is any 512-byte sequence. How many bytes one read fills, and a read error, are not modelled.
- `thread::sleep(Duration::from_secs(20))`: modelled as the boolean `sleeps`/`slept`. Time is not modelled.
- `fs::read_to_string`: modelled as a lookup in a `map<string, string>`. A missing file is a `FileNotFound` panic. Unreadable or non-UTF-8 files are not modelled.
- `stream.write(response.as_bytes())` and `flush`: the response stays a `string`. Its UTF-8 encoding, short writes and write errors are not modelled.
- The printing in both `main` functions: the model gives the sequence of printed values, not the text ` 0 1 1 2 3 5 8 13 21 34\n`.
- Release builds: Rust wraps `u64` overflow in release builds. The model uses debug-build semantics, where the overflow panics.
- Running time: the exponential cost of the recursive version is not modelled.
- FibonacciRecursion.Fibonacci: stack depth is not modelled. `fibonacci(n - 2)` is evaluated before any addition, so the recursion goes about n/2 calls deep first. For large n (say 10,000,000, or `u64::MAX`) the real program aborts with a stack overflow before any addition overflows. The model returns the `AddOverflow` panic instead. Its claims, and the loop's equality with it, hold for an unbounded stack.
- WebServer.HandleConnection: a `Panicked` result does not record whether the handler slept before the missing-file panic. `Decide(buffer).sleeps` gives that.
