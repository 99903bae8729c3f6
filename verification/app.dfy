/** The page of App.tsx: the topic derived from a file name, and the state the page keeps
    together with the handlers that change it. */
module Page {
  import opened Types
  import opened JsText

  /** What `/\.[^/.]+$/` matches: a '.' followed by one or more characters, none of them '.'
      or '/', up to the end of the string. */
  predicate IsExtension(ext: string) {
    |ext| >= 2 && ext[0] == '.' && forall i :: 1 <= i < |ext| ==> ext[i] != '.' && ext[i] != '/'
  }

  /** The position of the last '.' among the first `n` characters, if any. */
  function LastDot(name: string, n: nat): (r: Option<nat>)
    requires n <= |name|
    ensures r.Some? ==> r.value < n && name[r.value] == '.' && forall j :: r.value < j < n ==> name[j] != '.'
    ensures r.None? ==> forall j :: 0 <= j < n ==> name[j] != '.'
  {
    if n == 0 then None else if name[n - 1] == '.' then Some(n - 1) else LastDot(name, n - 1)
  }

  /** `name.replace(/\.[^/.]+$/, "")`: only the last '.' can start a match, and it does when
      at least one character follows it and none of those is a '/'. */
  function StripExtension(name: string): (r: string)
    ensures |r| <= |name| && r == name[..|r|]
    ensures r != name ==> IsExtension(name[|r|..])
    ensures r == name <==> forall k :: 0 <= k <= |name| ==> !IsExtension(name[k..])
  {
    match LastDot(name, |name|)
    case None => name
    case Some(i) =>
      if i + 1 < |name| && forall j :: i < j < |name| ==> name[j] != '/' then
        assert IsExtension(name[i..]);
        name[..i]
      else
        NoExtension(name, i);
        name
  }

  /** When the last '.' is at `i` and is not followed by a usable extension, nothing matches. */
  lemma NoExtension(name: string, i: nat)
    requires LastDot(name, |name|) == Some(i)
    requires !(i + 1 < |name| && forall j :: i < j < |name| ==> name[j] != '/')
    ensures forall k :: 0 <= k <= |name| ==> !IsExtension(name[k..])
  {
    forall k | 0 <= k <= |name|
      ensures !IsExtension(name[k..])
    {
      if k < i {
        assert name[k..][i - k] == '.';
      } else if k == i && i + 1 < |name| {
        var j :| i < j < |name| && name[j] == '/';
        assert name[k..][j - k] == '/';
      }
    }
  }

  /** A name has at most one extension: the match of the regular expression is unique. */
  lemma ExtensionUnique(name: string, a: nat)
    requires a <= |name| && IsExtension(name[a..])
    ensures forall b :: 0 <= b <= |name| && b != a ==> !IsExtension(name[b..])
  {
    forall b | 0 <= b <= |name| && b != a
      ensures !IsExtension(name[b..])
    {
      if b < a {
        assert name[b..][a - b] == name[a];
      } else if b < |name| {
        assert name[b] == name[a..][b - a];
      }
    }
  }

  /** `s.replace(/_/g, " ")` */
  function UnderscoresToSpaces(s: string): (r: string)
    ensures |r| == |s|
    ensures forall i :: 0 <= i < |s| ==> r[i] == (if s[i] == '_' then ' ' else s[i])
    ensures '_' !in r
  {
    if s == [] then [] else [if s[0] == '_' then ' ' else s[0]] + UnderscoresToSpaces(s[1..])
  }

  /** The topic suggested for an uploaded file: its name without the extension, with every
      underscore turned into a space. */
  function TopicFromFileName(name: string): (topic: string)
    ensures |topic| <= |name| && '_' !in topic
  {
    UnderscoresToSpaces(StripExtension(name))
  }

  /** The topic is the name with its extension, when it has one, cut off, and underscores
      turned into spaces. */
  lemma TopicDropsExtension(name: string)
    ensures forall k :: 0 <= k <= |name| && IsExtension(name[k..]) ==>
      TopicFromFileName(name) == UnderscoresToSpaces(name[..k])
    ensures (forall k :: 0 <= k <= |name| ==> !IsExtension(name[k..])) ==>
      TopicFromFileName(name) == UnderscoresToSpaces(name)
  {
    var r := StripExtension(name);
    forall k | 0 <= k <= |name| && IsExtension(name[k..])
      ensures TopicFromFileName(name) == UnderscoresToSpaces(name[..k])
    {
      ExtensionUnique(name, k);
      assert r != name;
    }
  }

  /** An underscore in the name becomes a space. */
  lemma ExampleTopicWithUnderscore()
    ensures TopicFromFileName("my_video.mp4") == "my video"
  {
    var name := "my_video.mp4";
    assert LastDot(name, 12) == Some(8) by {
      assert name[11] != '.' && name[10] != '.' && name[9] != '.' && name[8] == '.';
    }
    assert StripExtension(name) == "my_video";
  }

  /** A name that is all extension leaves an empty topic. */
  lemma ExampleDotFile()
    ensures TopicFromFileName(".bashrc") == ""
  {
    var name := ".bashrc";
    assert LastDot(name, 7) == Some(0);
    assert StripExtension(name) == "";
  }

  /** Only the last extension goes. */
  lemma ExampleTwoExtensions()
    ensures TopicFromFileName("a.tar.gz") == "a.tar"
  {
    var name := "a.tar.gz";
    assert LastDot(name, 8) == Some(5) by {
      assert name[7] != '.' && name[6] != '.' && name[5] == '.';
    }
    assert StripExtension(name) == "a.tar";
    assert UnderscoresToSpaces("a.tar") == "a.tar";
  }

  /** A trailing '.' is not an extension. */
  lemma ExampleTrailingDot()
    ensures TopicFromFileName("notes.") == "notes."
  {
    var name := "notes.";
    assert LastDot(name, 6) == Some(5);
    assert StripExtension(name) == "notes.";
    assert UnderscoresToSpaces(name) == name;
  }

  /** `!videoTopic.trim()`: the topic is empty once trimmed, that is, whitespace only. */
  method BlankTopic(topic: string) returns (blank: bool)
    ensures blank <==> AllWhitespace(topic)
  {
    TrimEmptyIff(topic);
    blank := Trim(topic) == [];
  }

  const NoFileError := "Please upload a video file first."
  const NoTopicError := "Please provide a topic for the video."
  const GenerationError := "An error occurred while generating the blog post. Please try again."
  const ExtractingMessage := "Extracting keyframes..."

  /** A call the page makes to a service: the blog-post generator or the frame extractor. */
  datatype Call =
    | GenerateCall(topic: string, style: BlogStyle)
    | ExtractCall(file: File, suggestions: seq<ImageSuggestion>)

  /** The state of the page, one field per `useState` of App.tsx. */
  class App {
    var videoFile: Option<File>
    var videoTopic: string
    var blogStyle: BlogStyle
    var isLoading: bool
    var loadingMessage: string
    var blogPost: Option<BlogPost>
    var extractedFrames: Option<seq<ExtractedFrame>>
    var error: Option<string>

    /** A post comes with a file, and frames come with a post that suggested some. */
    ghost predicate Consistent()
      reads this
    {
      && (blogPost.Some? ==> videoFile.Some?)
      && (extractedFrames.Some? ==> blogPost.Some? && |blogPost.value.imageSuggestions| > 0)
    }

    /** When handlers run one at a time, each to its end, the page is idle between two of
        them and consistent. */
    ghost predicate Valid()
      reads this
    {
      !isLoading && loadingMessage == "" && Consistent()
    }

    constructor()
      ensures Valid()
      ensures videoFile == None && videoTopic == "" && blogStyle == Professional
      ensures !isLoading && loadingMessage == ""
      ensures blogPost == None && extractedFrames == None && error == None
    {
      videoFile := None;
      videoTopic := "";
      blogStyle := Professional;
      isLoading := false;
      loadingMessage := "";
      blogPost := None;
      extractedFrames := None;
      error := None;
    }

    /** A new file replaces the old one, suggests a topic and clears the previous result. A
        file dropped on the upload area arrives here even while the page is loading. */
    method HandleFileChange(file: File)
      modifies this
      ensures Consistent()
      ensures old(!isLoading && loadingMessage == "") ==> Valid()
      ensures videoFile == Some(file) && videoTopic == TopicFromFileName(file.name)
      ensures blogPost == None && extractedFrames == None && error == None
      ensures blogStyle == old(blogStyle) && isLoading == old(isLoading) && loadingMessage == old(loadingMessage)
    {
      videoFile := Some(file);
      videoTopic := TopicFromFileName(file.name);
      blogPost := None;
      extractedFrames := None;
      error := None;
    }

    /** The topic input. */
    method SetVideoTopic(topic: string)
      modifies this
      ensures Valid() == old(Valid()) && Consistent() == old(Consistent())
      ensures videoTopic == topic
      ensures videoFile == old(videoFile) && blogStyle == old(blogStyle) && blogPost == old(blogPost)
      ensures extractedFrames == old(extractedFrames) && error == old(error)
      ensures isLoading == old(isLoading) && loadingMessage == old(loadingMessage)
    {
      videoTopic := topic;
    }

    /** The style selector. */
    method SetBlogStyle(style: BlogStyle)
      modifies this
      ensures Valid() == old(Valid()) && Consistent() == old(Consistent())
      ensures blogStyle == style
      ensures videoFile == old(videoFile) && videoTopic == old(videoTopic) && blogPost == old(blogPost)
      ensures extractedFrames == old(extractedFrames) && error == old(error)
      ensures isLoading == old(isLoading) && loadingMessage == old(loadingMessage)
    {
      blogStyle := style;
    }

    /** What the generate handler does once its guards pass and before it waits on the
        generator: the page is loading and the previous result and error are gone. */
    method StartLoading()
      modifies this
      ensures isLoading && error == None && blogPost == None && extractedFrames == None
      ensures videoFile == old(videoFile) && videoTopic == old(videoTopic) && blogStyle == old(blogStyle)
      ensures loadingMessage == old(loadingMessage)
    {
      isLoading := true;
      error := None;
      blogPost := None;
      extractedFrames := None;
    }

    /** The generate button, enabled whenever the page is not loading. Without a file, or with
        a topic that is empty once trimmed (whitespace only), it sets an error and calls
        nothing; otherwise it runs the generation, which ends idle and consistent whatever
        stale message or frames the page held before. */
    method HandleGenerate(generate: (string, BlogStyle) -> Result<BlogPost>,
                          extract: (File, seq<ImageSuggestion>) -> Result<seq<ExtractedFrame>>)
      returns (calls: seq<Call>)
      modifies this
      requires !isLoading
      ensures videoFile == old(videoFile) && videoTopic == old(videoTopic) && blogStyle == old(blogStyle)
      ensures old(videoFile).None? ==>
        && calls == [] && error == Some(NoFileError)
        && blogPost == old(blogPost) && extractedFrames == old(extractedFrames)
        && !isLoading && loadingMessage == old(loadingMessage) && Consistent() == old(Consistent())
      ensures old(videoFile).Some? && AllWhitespace(old(videoTopic)) ==>
        && calls == [] && error == Some(NoTopicError)
        && blogPost == old(blogPost) && extractedFrames == old(extractedFrames)
        && !isLoading && loadingMessage == old(loadingMessage) && Consistent() == old(Consistent())
      ensures old(videoFile).Some? && !AllWhitespace(old(videoTopic)) ==>
        Valid() && Generated(generate, extract, old(videoFile).value, old(videoTopic), old(blogStyle), calls)
    {
      var blank := BlankTopic(videoTopic);
      if videoFile.None? {
        error := Some(NoFileError);
        calls := [];
      } else if blank {
        error := Some(NoTopicError);
        calls := [];
      } else {
        calls := RunGeneration(generate, extract);
      }
    }

    /** The outcome of a generation for `file`, `topic` and `style`: the generator is called
        with the topic and the style; a failure sets the generic error and leaves no post; a
        post is shown and, when it suggests images, the frame extractor is called, a failure
        of which only leaves the frames out. */
    ghost predicate Generated(generate: (string, BlogStyle) -> Result<BlogPost>,
                              extract: (File, seq<ImageSuggestion>) -> Result<seq<ExtractedFrame>>,
                              file: File, topic: string, style: BlogStyle, calls: seq<Call>)
      reads this
    {
      && |calls| >= 1 && calls[0] == GenerateCall(topic, style)
      && match generate(topic, style)
         case Failure(_) =>
           && calls == [calls[0]] && error == Some(GenerationError)
           && blogPost == None && extractedFrames == None
         case Success(post) =>
           && error == None && blogPost == Some(post)
           && if |post.imageSuggestions| > 0 then
                && calls == [calls[0], ExtractCall(file, post.imageSuggestions)]
                && extractedFrames ==
                     match extract(file, post.imageSuggestions)
                     case Success(frames) => Some(frames)
                     case Failure(_) => None
              else
                calls == [calls[0]] && extractedFrames == None
    }

    /** The body of the generate handler after its guards; whatever happens the page stops
        loading. */
    method RunGeneration(generate: (string, BlogStyle) -> Result<BlogPost>,
                         extract: (File, seq<ImageSuggestion>) -> Result<seq<ExtractedFrame>>)
      returns (calls: seq<Call>)
      modifies this
      requires videoFile.Some?
      ensures Valid()
      ensures videoFile == old(videoFile) && videoTopic == old(videoTopic) && blogStyle == old(blogStyle)
      ensures Generated(generate, extract, old(videoFile).value, old(videoTopic), old(blogStyle), calls)
    {
      var request;
      calls, request := GenerateUntilExtraction(generate);
      if request.Some? {
        calls := calls + [ExtractCall(videoFile.value, request.value)];
        FinishExtraction(extract(videoFile.value, request.value));
      }
    }

    /** The generate handler up to the point where it waits on the frame extractor: loading
        starts and the generator is called. On a failure, or a post without image
        suggestions, the handler ends there; otherwise the post is shown, the message says
        that keyframes are being extracted, and `request` holds the suggestions the page
        waits on. */
    method GenerateUntilExtraction(generate: (string, BlogStyle) -> Result<BlogPost>)
      returns (calls: seq<Call>, request: Option<seq<ImageSuggestion>>)
      modifies this
      requires videoFile.Some?
      ensures videoFile == old(videoFile) && videoTopic == old(videoTopic) && blogStyle == old(blogStyle)
      ensures calls == [GenerateCall(old(videoTopic), old(blogStyle))] && extractedFrames == None
      ensures match generate(old(videoTopic), old(blogStyle))
        case Failure(_) =>
          request == None && error == Some(GenerationError) && blogPost == None && Valid()
        case Success(post) =>
          && error == None && blogPost == Some(post)
          && if |post.imageSuggestions| > 0 then
               request == Some(post.imageSuggestions) && isLoading && loadingMessage == ExtractingMessage
             else
               request == None && Valid()
    {
      StartLoading();
      calls := [GenerateCall(videoTopic, blogStyle)];
      request := None;
      match generate(videoTopic, blogStyle) {
        case Failure(_) =>
          error := Some(GenerationError);
        case Success(post) =>
          blogPost := Some(post);
          if |post.imageSuggestions| > 0 && videoFile.Some? {
            loadingMessage := ExtractingMessage;
            request := Some(post.imageSuggestions);
          }
      }
      if request.None? {
        isLoading := false;
        loadingMessage := "";
      }
    }

    /** The generate handler once the frame extractor has settled, through its `finally`: the
        frames, or none when the extraction failed; the page stops loading. */
    method FinishExtraction(frames: Result<seq<ExtractedFrame>>)
      modifies this
      ensures extractedFrames == (if frames.Success? then Some(frames.value) else None)
      ensures !isLoading && loadingMessage == ""
      ensures videoFile == old(videoFile) && videoTopic == old(videoTopic) && blogStyle == old(blogStyle)
      ensures blogPost == old(blogPost) && error == old(error)
    {
      match frames {
        case Success(fs) => extractedFrames := Some(fs);
        case Failure(_) => extractedFrames := None;
      }
      isLoading := false;
      loadingMessage := "";
    }

    /** "Analyze Another Video": back to an empty page, keeping only the chosen style. The
        loading message is not cleared, so only a page that showed none is idle afterwards. */
    method HandleReset()
      modifies this
      ensures Consistent()
      ensures old(loadingMessage) == "" ==> Valid()
      ensures videoFile == None && videoTopic == "" && blogPost == None && extractedFrames == None
      ensures error == None && !isLoading
      ensures blogStyle == old(blogStyle) && loadingMessage == old(loadingMessage)
    {
      videoFile := None;
      videoTopic := "";
      blogPost := None;
      extractedFrames := None;
      error := None;
      isLoading := false;
    }

    /** The reset button is shown, and enabled, as soon as there is a post, while the
        generate handler may still wait on the frame extractor. A reset at that point leaves
        the extraction message behind, and when the extractor then succeeds its frames are
        stored on a page that has neither a post nor a file. */
    method ResetDuringExtraction(generate: (string, BlogStyle) -> Result<BlogPost>,
                                 extract: (File, seq<ImageSuggestion>) -> Result<seq<ExtractedFrame>>)
      returns (calls: seq<Call>)
      modifies this
      requires videoFile.Some? && generate(videoTopic, blogStyle).Success?
      requires |generate(videoTopic, blogStyle).value.imageSuggestions| > 0
      requires extract(videoFile.value, generate(videoTopic, blogStyle).value.imageSuggestions).Success?
      ensures blogPost == None && videoFile == None && extractedFrames.Some?
      ensures !Consistent()
    {
      var file := videoFile.value;
      var request;
      calls, request := GenerateUntilExtraction(generate);
      calls := calls + [ExtractCall(file, request.value)];
      HandleReset();
      assert !Valid() && loadingMessage == ExtractingMessage;
      FinishExtraction(extract(file, request.value));
    }

    /** The extractor's result as the page evidently means to take it: it is stored, and
        loading ends, only while the post and the file it was extracted for are still shown.
        A result that arrives after a reset, or after another file or post replaced them,
        changes nothing, so the page stays consistent. */
    method FinishExtractionIfCurrent(file: File, post: BlogPost, frames: Result<seq<ExtractedFrame>>)
      modifies this
      requires Consistent() && |post.imageSuggestions| > 0
      ensures Consistent()
      ensures old(blogPost) == Some(post) && old(videoFile) == Some(file) ==>
        && extractedFrames == (if frames.Success? then Some(frames.value) else None)
        && !isLoading && loadingMessage == ""
      ensures !(old(blogPost) == Some(post) && old(videoFile) == Some(file)) ==>
        && extractedFrames == old(extractedFrames)
        && isLoading == old(isLoading) && loadingMessage == old(loadingMessage)
      ensures videoFile == old(videoFile) && videoTopic == old(videoTopic) && blogStyle == old(blogStyle)
      ensures blogPost == old(blogPost) && error == old(error)
    {
      if blogPost == Some(post) && videoFile == Some(file) {
        FinishExtraction(frames);
      }
    }

    /** The reset as evidently intended: the page is emptied and the loading message cleared
        too, so the page is idle whatever state it was reset from. */
    method ResetClearingMessage()
      modifies this
      ensures Valid()
      ensures videoFile == None && videoTopic == "" && blogPost == None && extractedFrames == None
      ensures error == None && !isLoading && loadingMessage == ""
      ensures blogStyle == old(blogStyle)
    {
      HandleReset();
      loadingMessage := "";
    }

    /** A reset during extraction, with the message cleared, followed by the checked
        continuation: the stale frames are dropped and the page is empty and idle. */
    method ResetDuringExtractionChecked(generate: (string, BlogStyle) -> Result<BlogPost>,
                                        extract: (File, seq<ImageSuggestion>) -> Result<seq<ExtractedFrame>>)
      returns (calls: seq<Call>)
      modifies this
      requires videoFile.Some? && generate(videoTopic, blogStyle).Success?
      requires |generate(videoTopic, blogStyle).value.imageSuggestions| > 0
      ensures Valid()
      ensures blogPost == None && videoFile == None && extractedFrames == None
    {
      var file := videoFile.value;
      var post := generate(videoTopic, blogStyle).value;
      var request;
      calls, request := GenerateUntilExtraction(generate);
      calls := calls + [ExtractCall(file, request.value)];
      ResetClearingMessage();
      FinishExtractionIfCurrent(file, post, extract(file, request.value));
    }
  }
}
