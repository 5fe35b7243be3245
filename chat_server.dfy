/** The logic of the web application (`backend/main.py`) beneath its routes:
    the registry of live chat connections, the canned-reply selectors and the
    guard of the text-chat endpoint. */
module ChatServer {
  import opened Wrappers
  import opened PyText
  import Audio

  // ---------------------------------------------------------------------------
  // The connection registry

  /** The registry after `chatId` is connected to `websocket`: that id now maps
      to that handle, whatever it mapped to before, and every other id keeps its
      handle. */
  function Register<W>(connections: map<string, W>, chatId: string, websocket: W): (r: map<string, W>)
    ensures r.Keys == connections.Keys + {chatId}
    ensures r[chatId] == websocket
    ensures forall id :: id in connections && id != chatId ==> r[id] == connections[id]
  {
    connections[chatId := websocket]
  }

  /** The registry after `chatId` is disconnected: that id is gone, every other
      id keeps its handle, and an id that was not registered changes nothing. */
  function Unregister<W>(connections: map<string, W>, chatId: string): (r: map<string, W>)
    ensures r.Keys == connections.Keys - {chatId}
    ensures forall id :: id in r ==> r[id] == connections[id]
    ensures chatId !in connections ==> r == connections
  {
    if chatId in connections then connections - {chatId} else connections
  }

  /** A second connect for the same id replaces the first: the earlier handle is
      no longer reachable. */
  lemma ReconnectReplaces<W>(connections: map<string, W>, chatId: string, first: W, second: W)
    ensures Register(Register(connections, chatId, first), chatId, second)
         == Register(connections, chatId, second)
  {
  }

  /** Disconnecting twice is disconnecting once. */
  lemma UnregisterIdempotent<W>(connections: map<string, W>, chatId: string)
    ensures Unregister(Unregister(connections, chatId), chatId) == Unregister(connections, chatId)
  {
  }

  /** Connecting and then disconnecting an id leaves no trace of the connection. */
  lemma UnregisterUndoesRegister<W>(connections: map<string, W>, chatId: string, websocket: W)
    ensures Unregister(Register(connections, chatId, websocket), chatId) == Unregister(connections, chatId)
    ensures chatId !in connections ==> Unregister(Register(connections, chatId, websocket), chatId) == connections
  {
  }

  /** Operations on different ids do not interfere: they commute. */
  lemma DistinctIdsCommute<W>(connections: map<string, W>, a: string, b: string, wa: W, wb: W)
    requires a != b
    ensures Register(Register(connections, a, wa), b, wb) == Register(Register(connections, b, wb), a, wa)
    ensures Unregister(Register(connections, a, wa), b) == Register(Unregister(connections, b), a, wa)
    ensures Unregister(Unregister(connections, a), b) == Unregister(Unregister(connections, b), a)
  {
  }

  /** `ConnectionManager`: the single map from chat id to the live connection. */
  class ConnectionManager<WebSocket> {
    var activeConnections: map<string, WebSocket>

    constructor ()
      ensures activeConnections == map[]
    {
      activeConnections := map[];
    }

    /** `connect`: register `websocket` for `chatId`, replacing any earlier one. */
    method Connect(websocket: WebSocket, chatId: string)
      modifies this
      ensures activeConnections == Register(old(activeConnections), chatId, websocket)
    {
      activeConnections := activeConnections[chatId := websocket];
    }

    /** `disconnect`: drop the entry for `chatId` if there is one. */
    method Disconnect(chatId: string)
      modifies this
      ensures activeConnections == Unregister(old(activeConnections), chatId)
    {
      if chatId in activeConnections {
        activeConnections := activeConnections - {chatId};
      }
    }
  }

  /** Connect A to h1, then to h2: only h2 is registered; a disconnect removes
      it and a second disconnect is harmless. */
  method ReconnectScenario<WebSocket>(h1: WebSocket, h2: WebSocket)
  {
    var manager := new ConnectionManager<WebSocket>();
    manager.Connect(h1, "A");
    manager.Connect(h2, "A");
    assert manager.activeConnections == map["A" := h2];
    manager.Disconnect("A");
    assert manager.activeConnections == map[];
    manager.Disconnect("A");
    assert manager.activeConnections == map[];
  }

  // ---------------------------------------------------------------------------
  // Canned replies

  const NEWS_KEYWORDS: seq<string> := ["资讯", "新闻", "最新", "技术"]
  const WRITING_KEYWORDS: seq<string> := ["写", "生成", "文章", "稿件", "报告"]
  const PREVIEW_KEYWORDS: seq<string> := ["预览", "编辑", "发布"]
  const HELP_KEYWORDS: seq<string> := ["帮助", "功能", "怎么用", "介绍"]

  /** The keyword groups, in the order they are tried. */
  const KEYWORD_GROUPS: seq<seq<string>> := [NEWS_KEYWORDS, WRITING_KEYWORDS, PREVIEW_KEYWORDS, HELP_KEYWORDS]

  const NEWS_REPLY: string := "🔍 找到了3条增材制造最新资讯：\n\n📈 **技术突破**：新型陶瓷3D打印材料发布，耐高温性能提升60%\n🏭 **产业动态**：西门子宣布在华建设金属3D打印研发中心  \n💰 **投资热点**：某3D打印初创公司完成5000万A轮融资\n\n点击任意链接获取详细分析，或告诉我\"生成报告\"为您制作深度分析稿件。"
  const WRITING_REPLY: string := "✍️ 正在为您生成专业内容稿件...\n\n📋 **建议结构**：\n• 标题：抓住核心技术亮点\n• 导语：30秒快速吸引读者注意力  \n• 主体：数据支撑+案例分析+行业对比\n• 结语：趋势预判和投资建议\n\n🎯 **预览功能**：稿件生成后将自动弹出预览窗口，支持实时编辑和格式调整。\n\n请提供具体主题或选择上述资讯，我将为您量身定制高质量内容。"
  const PREVIEW_REPLY: string := "🖥️ 启动预览IDE模式...\n\n将为您打开：\n• 📝 所见即所得的编辑界面\n• 🎨 多平台适配预览（微信公众号/小红书/知乎）\n• 📊 内容质量评分和SEO优化建议\n• 🚀 一键发布到各大平台\n\n点击下方链接进入预览模式：\n🔗 [打开预览IDE] (模拟链接，实际会触发弹窗)"
  const HELP_REPLY: string := "👋 欢迎使用西冷资讯AI协作OS！\n\n🌟 **核心能力**：\n🔍 **智能资讯搜集**：实时抓取行业最新动态\n✍️ **专业内容创作**：生成高质量媒体稿件  \n🎙️ **语音交互**：按住说话，解放双手操作\n📱 **多平台适配**：一稿多投，自动格式优化\n🖥️ **实时预览IDE**：所见即所得编辑体验\n\n💡 **试试这些指令**：\n• \"找今天3D打印的最新突破\"\n• \"写一篇金属打印的深度分析\"  \n• \"语音输入功能测试\"\n\n开始您的AI协作之旅吧！"

  /** The reply of each keyword group, in the same order. */
  const GROUP_REPLIES: seq<string> := [NEWS_REPLY, WRITING_REPLY, PREVIEW_REPLY, HELP_REPLY]

  /** The text around the echoed message in the reply to a message no group matches. */
  const FALLBACK_OPENING: string := "💬 收到您的消息：\""
  const FALLBACK_CLOSING: string := "\"\n\n🤖 我是西冷资讯AI协作OS，专注于增材制造/3D打印领域的智能内容协作。\n\n🎯 **即刻体验**：\n• 语音交互：长按录音键说话\n• 资讯搜索：告诉我您关注的技术方向\n• 内容创作：让我为您写专业分析稿\n\n有什么我可以帮助您的吗？让我们开始高效的人机协作！"

  /** Python's `any(keyword in text for keyword in keywords)`. */
  predicate MentionsAny(text: string, keywords: seq<string>)
    ensures MentionsAny(text, keywords) <==>
      exists i, j :: 0 <= i < |keywords| && 0 <= j <= |text| && keywords[i] <= text[j..]
  {
    ContainsEachIffOccurs(text, keywords);
    exists i :: 0 <= i < |keywords| && Contains(text, keywords[i])
  }

  lemma ContainsEachIffOccurs(text: string, keywords: seq<string>)
    ensures forall i :: 0 <= i < |keywords| ==>
      (Contains(text, keywords[i]) <==> exists j :: 0 <= j <= |text| && keywords[i] <= text[j..])
  {
    forall i | 0 <= i < |keywords|
      ensures Contains(text, keywords[i]) <==> exists j :: 0 <= j <= |text| && keywords[i] <= text[j..]
    {
      ContainsIffOccurs(text, keywords[i]);
    }
  }

  /** Group `k` is the first group `text` mentions (`k` past the last group:
      none is mentioned). */
  predicate FirstMatchAt(text: string, k: int)
  {
    && 0 <= k <= |KEYWORD_GROUPS|
    && (forall j :: 0 <= j < k ==> !MentionsAny(text, KEYWORD_GROUPS[j]))
    && (k < |KEYWORD_GROUPS| ==> MentionsAny(text, KEYWORD_GROUPS[k]))
  }

  /** Every text has exactly one first match. */
  lemma FirstMatchUnique(text: string, k: int, l: int)
    requires FirstMatchAt(text, k) && FirstMatchAt(text, l)
    ensures k == l
  {
  }

  /** `_generate_ai_reply`: the reply of the first keyword group the lowered
      message mentions, in the order news, writing, preview, help; when it
      mentions none, a reply that quotes the message verbatim. */
  function GenerateAiReply(userMessage: string): (reply: string)
    ensures exists k :: FirstMatchAt(Lower(userMessage), k)
    ensures forall k :: FirstMatchAt(Lower(userMessage), k) ==>
      reply == if k < |GROUP_REPLIES| then GROUP_REPLIES[k] else FALLBACK_OPENING + userMessage + FALLBACK_CLOSING
    ensures FirstMatchAt(Lower(userMessage), |KEYWORD_GROUPS|) ==> Contains(reply, userMessage)
  {
    var messageLower := Lower(userMessage);
    if MentionsAny(messageLower, NEWS_KEYWORDS) then
      assert FirstMatchAt(messageLower, 0);
      NEWS_REPLY
    else if MentionsAny(messageLower, WRITING_KEYWORDS) then
      assert FirstMatchAt(messageLower, 1);
      WRITING_REPLY
    else if MentionsAny(messageLower, PREVIEW_KEYWORDS) then
      assert FirstMatchAt(messageLower, 2);
      PREVIEW_REPLY
    else if MentionsAny(messageLower, HELP_KEYWORDS) then
      assert FirstMatchAt(messageLower, 3);
      HELP_REPLY
    else
      assert FirstMatchAt(messageLower, 4);
      ContainsInfix(FALLBACK_OPENING, userMessage, FALLBACK_CLOSING);
      FALLBACK_OPENING + userMessage + FALLBACK_CLOSING
  }

  /** No keyword holds an ASCII letter, so lowering the message never changes
      which group it mentions. */
  lemma {:induction false} KeywordMatchIgnoresCase(text: string, g: nat)
    requires g < |KEYWORD_GROUPS|
    ensures MentionsAny(Lower(text), KEYWORD_GROUPS[g]) <==> MentionsAny(text, KEYWORD_GROUPS[g])
  {
    var group := KEYWORD_GROUPS[g];
    forall i | 0 <= i < |group|
      ensures Contains(Lower(text), group[i]) <==> Contains(text, group[i])
    {
      KeywordsCaseless(g, i);
      ContainsLowerCaseless(text, group[i]);
    }
  }

  lemma KeywordsCaseless(g: nat, i: nat)
    requires g < |KEYWORD_GROUPS| && i < |KEYWORD_GROUPS[g]|
    ensures forall j :: 0 <= j < |KEYWORD_GROUPS[g][i]| ==> !IsAsciiLetter(KEYWORD_GROUPS[g][i][j])
  {
  }

  /** Two messages that differ only in the case of ASCII letters get the same
      reply, unless the reply echoes the message. */
  lemma GenerateAiReplyIgnoresCase(m: string, n: string)
    requires Lower(m) == Lower(n)
    requires !FirstMatchAt(Lower(m), |KEYWORD_GROUPS|)
    ensures GenerateAiReply(m) == GenerateAiReply(n)
  {
    var rm, rn := GenerateAiReply(m), GenerateAiReply(n);
    var k :| FirstMatchAt(Lower(m), k);
    var l :| FirstMatchAt(Lower(n), l);
    FirstMatchUnique(Lower(m), k, l);
  }

  // ---------------------------------------------------------------------------
  // Mock transcription and voice content

  const TRANSCRIPTIONS: seq<string> := [
    "用户说：帮我找一下最新的金属3D打印技术突破。",
    "用户说：我需要写一篇关于增材制造行业发展现状的深度分析文章，请帮我收集相关的市场数据、技术趋势和典型应用案例。",
    "用户说：请为我生成一份详细的增材制造行业报告，包括全球市场规模、主要技术路线对比、重点厂商分析、应用领域拓展情况，以及未来三年的发展趋势预测。这份报告将用于我们公司的战略投资决策。"]

  const VOICE_CONTENTS: seq<string> := [
    "找最新的3D打印资讯",
    "帮我写一篇关于航空航天3D打印应用的技术分析文章",
    "我需要一份完整的增材制造行业调研报告，包括技术发展、市场现状和投资机会分析"]

  /** Which mock transcription a file gets, from its size in whole KiB. In bytes:
      below 10 KiB the first, below 50 KiB the second, else the third. */
  function TranscriptionBucket(fileSize: nat): (b: nat)
    ensures b < |TRANSCRIPTIONS|
    ensures b == 0 <==> fileSize < 10 * 1024
    ensures b <= 1 <==> fileSize < 50 * 1024
  {
    var fileSizeKb := fileSize / 1024;
    if fileSizeKb < 10 then 0 else if fileSizeKb < 50 then 1 else 2
  }

  /** `_generate_mock_transcription`: one of the three canned transcriptions,
      chosen by the saved file's size. */
  function GenerateMockTranscription(fileInfo: Audio.FileInfo): (text: string)
    ensures text in TRANSCRIPTIONS
    ensures text == TRANSCRIPTIONS[0] <==> fileInfo.fileSize < 10240
    ensures text == TRANSCRIPTIONS[1] <==> 10240 <= fileInfo.fileSize < 51200
    ensures text == TRANSCRIPTIONS[2] <==> 51200 <= fileInfo.fileSize
  {
    TRANSCRIPTIONS[TranscriptionBucket(fileInfo.fileSize)]
  }

  /** Which mock voice content a message of `audioSize` bytes gets: below 10000
      bytes the first, below 50000 the second, else the third. */
  function VoiceBucket(audioSize: nat): (b: nat)
    ensures b < |VOICE_CONTENTS|
    ensures b == 0 <==> audioSize < 10000
    ensures b <= 1 <==> audioSize < 50000
  {
    if audioSize < 10000 then 0 else if audioSize < 50000 then 1 else 2
  }

  /** `_generate_mock_voice_content`: exactly one of the three canned contents,
      chosen by the raw byte count. */
  function GenerateMockVoiceContent(audioSize: nat): (text: string)
    ensures text in VOICE_CONTENTS
    ensures text == VOICE_CONTENTS[0] <==> audioSize < 10000
    ensures text == VOICE_CONTENTS[1] <==> 10000 <= audioSize < 50000
    ensures text == VOICE_CONTENTS[2] <==> 50000 <= audioSize
  {
    VOICE_CONTENTS[VoiceBucket(audioSize)]
  }

  /** A larger file never selects an earlier transcription or voice content. */
  lemma BucketsMonotone(a: nat, b: nat)
    requires a <= b
    ensures TranscriptionBucket(a) <= TranscriptionBucket(b)
    ensures VoiceBucket(a) <= VoiceBucket(b)
  {
  }

  /** The two selectors use different thresholds (KiB against bytes): the voice
      bucket is never below the transcription bucket, and the two disagree
      exactly between 10000 and 10239 bytes and between 50000 and 51199 bytes. */
  lemma BucketThresholdsDiffer(size: nat)
    ensures TranscriptionBucket(size) <= VoiceBucket(size)
    ensures TranscriptionBucket(size) != VoiceBucket(size)
        <==> (10000 <= size < 10240 || 50000 <= size < 51200)
  {
  }

  // ---------------------------------------------------------------------------
  // The text-chat endpoint

  /** The request body of the text-chat endpoint. */
  datatype ChatMessage = ChatMessage(message: string, userId: Option<string>, chatId: Option<string>)

  /** A successful answer of the text-chat endpoint. */
  datatype ChatResponse = ChatResponse(reply: string, timestamp: string, status: string)

  /** An error answer: an HTTP status and its detail text. */
  datatype HttpError = HttpError(statusCode: int, detail: string)

  const EMPTY_MESSAGE_DETAIL: string := "消息内容不能为空"

  /** `chat_endpoint`: a message that is blank after stripping is refused with
      status 400 before any reply is chosen; otherwise the reply to the stripped
      message. `timestamp` stands for the clock the endpoint reads. */
  function ChatEndpoint(request: ChatMessage, timestamp: string): (r: Result<ChatResponse, HttpError>)
    ensures r.Failure? <==> forall k :: 0 <= k < |request.message| ==> IsSpace(request.message[k])
    ensures r.Failure? ==> r.error == HttpError(400, EMPTY_MESSAGE_DETAIL)
    ensures r.Success? ==> r.value == ChatResponse(GenerateAiReply(Strip(request.message)), timestamp, "success")
  {
    var userMessage := Strip(request.message);
    StripEmptyIffBlank(request.message);
    if userMessage == "" then Failure(HttpError(400, EMPTY_MESSAGE_DETAIL))
    else Success(ChatResponse(GenerateAiReply(userMessage), timestamp, "success"))
  }

  /** White space around a message does not change the answer to it. */
  lemma ChatEndpointIgnoresPadding(request: ChatMessage, timestamp: string)
    ensures ChatEndpoint(request.(message := Strip(request.message)), timestamp) == ChatEndpoint(request, timestamp)
  {
    StripIdempotent(request.message);
    StripEmptyIffBlank(request.message);
    StripEmptyIffBlank(Strip(request.message));
  }
}
