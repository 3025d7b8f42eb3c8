/** The `repo` command's generator, as the engine sees it: a notice, the
    repository packing, a second notice naming the model, then the answer.
    Packing, reading the packed file and the request to the model are
    oracles; whatever they throw is caught and yielded as an error chunk. */
module RepoCommand {
  import opened OptionTable
  import opened ArgParser
  import opened Engine

  /** A thrown value: an Error with its message, or anything else. */
  datatype Thrown = ErrorWith(message: string) | NonError

  /** How far a run gets: the stage that throws, or the model's answer. */
  datatype RepoRun =
    | PackFails(packError: Thrown)
    | ReadFails(readError: Thrown)
    | FetchFails(fetchError: Thrown)
    | Answers(text: string)

  const PackingNotice: string := "正在打包仓库...\n"

  function UsingModelNotice(model: string): string {
    "正在使用" + model + "生成回答...\n"
  }

  function ErrorChunk(e: Thrown): string {
    match e
    case ErrorWith(message) => "错误: " + message
    case NonError => "未知错误"
  }

  /** `options?.model || config.gemini.model`: an empty model option falls
      back to the configured one. */
  function ModelName(options: Options, configModel: string): string {
    if Model in options && options[Model].Str? && options[Model].s != "" then options[Model].s
    else configModel
  }

  /** The chunks of one run; nothing escapes the generator. */
  function RepoExecute(options: Options, configModel: string, run: RepoRun): (p: Production)
    ensures !p.throws
  {
    var notice := UsingModelNotice(ModelName(options, configModel));
    match run
    case PackFails(e) => Production([PackingNotice, ErrorChunk(e)], false)
    case ReadFails(e) => Production([PackingNotice, ErrorChunk(e)], false)
    case FetchFails(e) => Production([PackingNotice, notice, ErrorChunk(e)], false)
    case Answers(text) => Production([PackingNotice, notice, text], false)
  }

  /** Every run starts with the packing notice and ends either with the
      answer or with the error of the failing stage; the model notice appears
      exactly when packing and reading succeeded. */
  lemma RepoChunks(options: Options, configModel: string, run: RepoRun)
    ensures var p := RepoExecute(options, configModel, run);
      |p.chunks| >= 2 && p.chunks[0] == PackingNotice
      && (|p.chunks| == 3 <==> run.FetchFails? || run.Answers?)
      && (|p.chunks| == 3 ==> p.chunks[1] == UsingModelNotice(ModelName(options, configModel)))
      && p.chunks[|p.chunks| - 1] == match run
        case PackFails(e) => ErrorChunk(e)
        case ReadFails(e) => ErrorChunk(e)
        case FetchFails(e) => ErrorChunk(e)
        case Answers(text) => text
  {
  }
}
