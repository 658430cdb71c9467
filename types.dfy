/** The records of the application (types.ts) and its static catalogs
    (constants.ts): model presets, the default preset id and the template presets. */
module Types {

  datatype ModelProvider = OpenAI | Anthropic | Google | XAI | Mistral | Other

  datatype SplitUnit = Tokens | Characters | Words

  datatype Boundary = NoBoundary | Sentence | Paragraph

  /** A model profile of the catalog. Pricing, capabilities, status, platform, output
      context and notes only feed the cost estimate and the display, and are not kept. */
  datatype ModelPreset = ModelPreset(
    id: string,
    caption: string,  // `label` in the source (a reserved word here)
    provider: ModelProvider,
    inputContext: int,
    encoding: string,
    defaultReplyBudget: int,
    defaultGuardBandPct: real)

  /** The per-session split settings; sizes are plain integers because the form fields
      deliver whatever `parseInt` makes of the user's input, zero and negatives included. */
  datatype SplitSettings = SplitSettings(
    unit: SplitUnit,
    size: int,
    modelPresetId: string,
    boundary: Boundary,
    overlap: int,
    replyBudget: int,
    guardBandPct: real)

  datatype TemplateSettings = TemplateSettings(
    firstMessage: string,
    perChunkHeader: string,
    perChunkFooter: string)

  datatype TemplatePreset = TemplatePreset(id: string, caption: string, settings: TemplateSettings)

  datatype OutputChunk = OutputChunk(name: string, content: string)

  datatype HistoryItem = HistoryItem(
    id: string,
    title: string,
    timestamp: int,
    inputText: string,
    outputChunks: seq<OutputChunk>)

  /** The lower-case name under which a provider is stored and searched. */
  function ProviderName(p: ModelProvider): string
  {
    match p
    case OpenAI => "openai"
    case Anthropic => "anthropic"
    case Google => "google"
    case XAI => "xai"
    case Mistral => "mistral"
    case Other => "other"
  }

  const MODEL_PRESETS: seq<ModelPreset> := [
    ModelPreset("openai:gpt-4.1-api", "GPT-4.1 (API)", OpenAI, 1000000, "o200k_base", 8000, 0.02),
    ModelPreset("openai:gpt-4o-api", "GPT-4o (API)", OpenAI, 128000, "o200k_base", 4000, 0.02),
    ModelPreset("openai:gpt-5-chat", "GPT-5 (ChatGPT)", OpenAI, 34815, "o200k_base", 4000, 0.03),
    ModelPreset("openai:gpt-5-thinking-chat", "GPT-5 Thinking (ChatGPT)", OpenAI, 196608, "o200k_base", 8000, 0.02),
    ModelPreset("google:gemini-2.5-pro", "Gemini 2.5 Pro", Google, 1048576, "google", 8000, 0.02),
    ModelPreset("google:gemini-2.5-flash", "Gemini 2.5 Flash", Google, 1048576, "google", 4000, 0.02),
    ModelPreset("anthropic:claude-3.5-sonnet", "Claude 3.5 Sonnet", Anthropic, 200000, "anthropic", 4000, 0.02),
    ModelPreset("mistral:mistral-large", "Mistral Large", Mistral, 32000, "cl100k_base", 4000, 0.05),
    ModelPreset("custom", "Custom", Other, 8000, "cl100k_base", 1000, 0.05)
  ]

  const DEFAULT_PRESET_ID: string := "openai:gpt-4o-api"

  /** The settings of the first template preset, which are also the initial templates. */
  const DEFAULT_TEMPLATE: TemplateSettings := TemplateSettings(
    "Please analyze the following text provided in multiple parts. I will send you the content in chunks. Do not provide any analysis or response until I explicitly ask you to, after I have sent all the parts. Your only response to each part should be \"OK.\" to acknowledge receipt.",
    "[START PART {part}/{total}]",
    "[END PART {part}/{total}]")

  const TEMPLATE_PRESETS: seq<TemplatePreset> := [
    TemplatePreset("default", "Default (Safe Acknowledgment)", DEFAULT_TEMPLATE),
    TemplatePreset("summarization", "Summarization Task", TemplateSettings(
      "You are an expert summarizer. I will provide a long document in several parts. Please wait until I have sent all parts, which will be indicated by \"[END OF DOCUMENT]\". After that, provide a concise summary of the entire document.",
      "--- Part {part} of {total} ---",
      "--- End of Part {part} ---")),
    TemplatePreset("qa", "Question & Answer", TemplateSettings(
      "I am providing a document in chunks for you to use as a knowledge base. Please process each part. After I send the final part, I will start asking you questions about the content.",
      "--- CONTEXT PART {part}/{total} ---",
      ""))
  ]
}
