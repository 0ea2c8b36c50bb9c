/**
  The option checks `Router` performs before any probing: every failing
  check terminates the process (`Environment.Exit(-1)`), which the model
  reports as the first failing check.
 */
module Config {
  import opened Common
  import opened Text
  import opened Decimal

  /** The command-line options; an absent proxy (`null`) is the empty string. */
  datatype Options = Options(
    debug: bool,
    httpTimeout: int,
    threads: int,
    outputFile: string,
    ports: seq<Int32>,
    proxy: string,
    wordList: string)

  /** What `File.Exists` answers for the output file and the wordlist. */
  datatype Files = Files(outputFileExists: bool, wordListExists: bool)

  /** Every reason the run stops before probing. */
  datatype ConfigError =
    | OutputFileExists
    | WordListMissing
    | NoPorts
    | TimeoutTooLow
    | InvalidProxy
    | UselessWordList

  /** The smallest accepted HTTP timeout, in milliseconds. */
  const MinHttpTimeout: int := 3000

  /**
    A proxy string is accepted when it is empty, or when it contains `:` and
    splitting it on `:` gives exactly two parts.
   */
  predicate ProxyAccepted(proxy: string)
  {
    proxy == "" || (':' in proxy && |Split(proxy, ':')| == 2)
  }

  /**
    The checks in the order the program makes them. A run passes exactly when
    the output file is new, the wordlist exists, there is a port, the timeout
    is at least 3000 ms, and the proxy is empty or has exactly one colon.
   */
  function Validate(options: Options, files: Files): (r: Outcome<ConfigError>)
    ensures r == Pass <==>
      && !files.outputFileExists
      && files.wordListExists
      && |options.ports| > 0
      && options.httpTimeout >= MinHttpTimeout
      && (options.proxy == "" || Occurrences(options.proxy, ':') == 1)
    ensures r == Fail(OutputFileExists) <==> files.outputFileExists
    ensures r == Fail(WordListMissing) <==> !files.outputFileExists && !files.wordListExists
    ensures r == Fail(NoPorts) <==>
      !files.outputFileExists && files.wordListExists && |options.ports| == 0
    ensures r == Fail(TimeoutTooLow) <==>
      !files.outputFileExists && files.wordListExists && |options.ports| > 0
      && options.httpTimeout < MinHttpTimeout
    ensures r == Fail(InvalidProxy) <==>
      !files.outputFileExists && files.wordListExists && |options.ports| > 0
      && options.httpTimeout >= MinHttpTimeout
      && options.proxy != "" && Occurrences(options.proxy, ':') != 1
    ensures r != Fail(UselessWordList)
  {
    if files.outputFileExists then Fail(OutputFileExists)
    else if !files.wordListExists then Fail(WordListMissing)
    else if |options.ports| == 0 then Fail(NoPorts)
    else if options.httpTimeout < MinHttpTimeout then Fail(TimeoutTooLow)
    else if !ProxyAccepted(options.proxy) then Fail(InvalidProxy)
    else Pass
  }

  /** The `Contains(":")` test is implied by the two-part test: one colon suffices. */
  lemma ProxyAcceptedIffOneColon(proxy: string)
    requires proxy != ""
    ensures ProxyAccepted(proxy) <==> |Split(proxy, ':')| == 2
    ensures ProxyAccepted(proxy) <==> Occurrences(proxy, ':') == 1
  {
  }
}
