/** The POST handler of the videos collection: it validates the posted
    `youtubeUrl`, refuses a video that is already registered, fetches the
    video's metadata and inserts one `pending` row into the
    `camera_videos` table, modelled by the `VideoCatalog` class. Metadata
    retrieval is a network call and enters as the function `fetchInfo`. */
module Registration {
  import opened Common
  import opened YouTube

  /** `status` of a `camera_videos` row. */
  datatype VideoStatus = Pending | Processing | Completed | Failed

  function StatusName(status: VideoStatus): string {
    match status
    case Pending => "pending"
    case Processing => "processing"
    case Completed => "completed"
    case Failed => "failed"
  }

  datatype VideoInfo = VideoInfo(title: string, description: string, thumbnailUrl: string, duration: int)

  datatype VideoRecord = VideoRecord(
    id: string,
    youtubeUrl: string,
    youtubeVideoId: string,
    title: string,
    description: string,
    thumbnailUrl: string,
    durationSeconds: int,
    status: VideoStatus)

  /** The `youtubeUrl` member of the posted JSON object. */
  datatype UrlField = Absent | NotString | Text(s: string)

  /** The request body: one the handler cannot read (JSON that fails to
      parse, or `null`, whose destructuring throws), with the thrown error's
      message, or a parsed object. */
  datatype RequestBody = Unparsable(message: string) | Json(youtubeUrl: UrlField)

  datatype ResponseBody =
    | ErrorBody(error: string)
    | Conflict(error: string, videoId: string)
    | Created(video: VideoRecord)

  datatype Response = Response(status: nat, body: ResponseBody)

  const UrlRequired: string := "YouTube URL is required"
  const InvalidUrl: string := "Invalid YouTube URL"
  const ExtractFailed: string := "Failed to extract video ID"
  const AlreadyRegistered: string := "Video already registered"
  const FetchFailedPrefix: string := "Failed to fetch video info: "

  /** A URL that passed every check, with the id extracted from it. */
  datatype ValidUrl = ValidUrl(url: string, videoId: string)

  /** The early returns ahead of the duplicate check. A body that does not
      parse, or whose destructuring throws, ends in the handler's catch:
      status 500 with the error's message. */
  function Validate(body: RequestBody): (r: Result<ValidUrl, Response>)
    ensures r.Success? ==>
      && body == Json(Text(r.value.url))
      && ExtractVideoId(r.value.url) == Some(r.value.videoId)
    ensures body.Unparsable? ==> r == Failure(Response(500, ErrorBody(body.message)))
    ensures body.Json? && (!body.youtubeUrl.Text? || body.youtubeUrl.s == "") ==>
      r == Failure(Response(400, ErrorBody(UrlRequired)))
    ensures body.Json? && body.youtubeUrl.Text? && body.youtubeUrl.s != "" && !IsValidYouTubeUrl(body.youtubeUrl.s) ==>
      r == Failure(Response(400, ErrorBody(InvalidUrl)))
  {
    match body
    case Unparsable(message) => Failure(Response(500, ErrorBody(message)))
    case Json(field) =>
      if !field.Text? || field.s == "" then Failure(Response(400, ErrorBody(UrlRequired)))
      else if !IsValidYouTubeUrl(field.s) then Failure(Response(400, ErrorBody(InvalidUrl)))
      else match ExtractVideoId(field.s)
        case None => Failure(Response(400, ErrorBody(ExtractFailed)))
        case Some(videoId) => Success(ValidUrl(field.s, videoId))
  }

  /** A body passes exactly when it carries a string URL the extractor
      accepts (the empty string is never one). */
  lemma ValidateAccepts(body: RequestBody)
    ensures Validate(body).Success? <==> body.Json? && body.youtubeUrl.Text? && IsValidYouTubeUrl(body.youtubeUrl.s)
  {
    if body.Json? && body.youtubeUrl.Text? && body.youtubeUrl.s == "" {
      assert FindUrlMatch("", 0).None?;
    }
  }

  /** Validity is defined as extractability, so the handler's
      "Failed to extract video ID" response can never be produced. */
  lemma ExtractFailureUnreachable(body: RequestBody)
    ensures Validate(body) != Failure(Response(400, ErrorBody(ExtractFailed)))
  {
  }

  /** The first row whose `youtube_video_id` is `videoId`. */
  function FindByVideoId(rows: seq<VideoRecord>, videoId: string): (r: Option<VideoRecord>)
    ensures r.Some? ==> r.value in rows && r.value.youtubeVideoId == videoId
    ensures r.None? ==> forall i :: 0 <= i < |rows| ==> rows[i].youtubeVideoId != videoId
    decreases |rows|
  {
    if |rows| == 0 then None
    else if rows[0].youtubeVideoId == videoId then Some(rows[0])
    else FindByVideoId(rows[1..], videoId)
  }

  /** No two rows share a `youtube_video_id` or an `id`. */
  predicate UniqueRows(rows: seq<VideoRecord>) {
    forall i, j :: 0 <= i < j < |rows| ==>
      rows[i].youtubeVideoId != rows[j].youtubeVideoId && rows[i].id != rows[j].id
  }

  /** Inserting a row whose video id and row id are both new keeps the rows
      unique. */
  lemma InsertKeepsUnique(rows: seq<VideoRecord>, record: VideoRecord)
    requires UniqueRows(rows)
    requires FindByVideoId(rows, record.youtubeVideoId).None?
    requires forall i :: 0 <= i < |rows| ==> rows[i].id != record.id
    ensures UniqueRows(rows + [record])
  {
    var after := rows + [record];
    forall i, j | 0 <= i < j < |after|
      ensures after[i].youtubeVideoId != after[j].youtubeVideoId && after[i].id != after[j].id
    {
      if j == |rows| {
        assert after[i] == rows[i];
      }
    }
  }

  /** Once a video is inserted, looking up its id finds the new row: a
      second registration of it is refused with that row's id. */
  lemma {:induction false} InsertedIsFound(rows: seq<VideoRecord>, record: VideoRecord)
    requires FindByVideoId(rows, record.youtubeVideoId).None?
    ensures FindByVideoId(rows + [record], record.youtubeVideoId) == Some(record)
    decreases |rows|
  {
    if |rows| > 0 {
      assert (rows + [record])[1..] == rows[1..] + [record];
      InsertedIsFound(rows[1..], record);
    }
  }

  /** The `camera_videos` table. Row ids are assigned by the database;
      here they are the decimal rendering of a counter. `infoRequests` logs
      the ids whose metadata was requested, in order. */
  class VideoCatalog {
    var rows: seq<VideoRecord>
    var nextId: nat
    var infoRequests: seq<string>

    ghost predicate Valid()
      reads this
    {
      && UniqueRows(rows)
      && forall i :: 0 <= i < |rows| ==>
           ParseNat(rows[i].id).Some? && ParseNat(rows[i].id).value < nextId
    }

    constructor ()
      ensures Valid() && rows == [] && infoRequests == []
    {
      rows := [];
      nextId := 0;
      infoRequests := [];
    }

    /** `POST`: validate, refuse a duplicate with 409 and the existing row's
        id, fetch metadata (a failure ends in the catch with 500), then
        insert one `pending` row and answer 201 with it. */
    method Post(body: RequestBody, fetchInfo: string -> Result<VideoInfo, string>)
      returns (response: Response)
      requires Valid()
      modifies this
      ensures Valid()
      ensures var v := Validate(body);
        v.Failure? ==>
          response == v.error && rows == old(rows) && infoRequests == old(infoRequests)
      ensures var v := Validate(body);
        v.Success? && FindByVideoId(old(rows), v.value.videoId).Some? ==>
          && response == Response(409, Conflict(AlreadyRegistered, FindByVideoId(old(rows), v.value.videoId).value.id))
          && rows == old(rows) && infoRequests == old(infoRequests)
      ensures var v := Validate(body);
        v.Success? && FindByVideoId(old(rows), v.value.videoId).None? ==>
          && infoRequests == old(infoRequests) + [v.value.videoId]
          && match fetchInfo(v.value.videoId)
             case Failure(message) =>
               response == Response(500, ErrorBody(FetchFailedPrefix + message)) && rows == old(rows)
             case Success(info) =>
               && |rows| == |old(rows)| + 1
               && var record := rows[|rows| - 1];
               && rows == old(rows) + [record]
               && response == Response(201, Created(record))
               && record.youtubeUrl == v.value.url
               && record.youtubeVideoId == v.value.videoId
               && record.title == info.title
               && record.description == info.description
               && record.thumbnailUrl == info.thumbnailUrl
               && record.durationSeconds == info.duration
               && record.status == Pending
               && FindByVideoId(rows, v.value.videoId) == Some(record)
    {
      var validated := Validate(body);
      if validated.Failure? {
        return validated.error;
      }
      var youtubeUrl := validated.value.url;
      var videoId := validated.value.videoId;
      var existing := FindByVideoId(rows, videoId);
      if existing.Some? {
        return Response(409, Conflict(AlreadyRegistered, existing.value.id));
      }
      infoRequests := infoRequests + [videoId];
      var videoInfo := fetchInfo(videoId);
      if videoInfo.Failure? {
        return Response(500, ErrorBody(FetchFailedPrefix + videoInfo.error));
      }
      var info := videoInfo.value;
      var record := VideoRecord(NatToString(nextId), youtubeUrl, videoId, info.title, info.description,
                                info.thumbnailUrl, info.duration, Pending);
      forall i | 0 <= i < |rows| ensures rows[i].id != record.id {
        NatToStringRoundTrip(nextId);
      }
      InsertKeepsUnique(rows, record);
      InsertedIsFound(rows, record);
      NatToStringRoundTrip(nextId);
      rows := rows + [record];
      nextId := nextId + 1;
      return Response(201, Created(record));
    }
  }
}
