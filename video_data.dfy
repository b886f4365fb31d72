// The video object attributes (Tables 123-126 of the format,
// crates/hwp-core/src/document/bodytext/video_data.rs): an INT32 video type,
// then for a local video two BinData ids, and for a web video a UTF-16 tag
// filling the record up to a final thumbnail BinData id.

module VideoData {
  import opened Bytes
  import opened Errors
  import opened Utf16

  datatype VideoAttributes =
    | Local(videoBinDataId: u16, thumbnailBinDataId: u16)
    | Web(webTag: string, thumbnailBinDataId: u16)

  datatype VideoData = VideoData(videoType: i32, videoAttributes: VideoAttributes)

  // VideoData::parse by absolute offsets.
  function VideoDataOf(data: seq<byte>): (r: Result<VideoData>)
    ensures |data| < 4 ==> r == Err(InsufficientData("VideoData", 4, |data|))
    ensures 4 <= |data| && I32(data, 0) == 0 ==>
      r == if |data| < 8 then Err(InsufficientData("VideoData local video attributes", 4, |data| - 4))
           else Ok(VideoData(0, Local(U16(data, 4), U16(data, 6))))
    ensures 4 <= |data| && I32(data, 0) == 1 && |data| < 6 ==>
      r == Err(InsufficientData("VideoData web video attributes", 2, |data| - 4))
    ensures 4 <= |data| && I32(data, 0) == 1 && |data| == 6 ==> r == Err(UnexpectedValue("VideoData web tag length"))
    ensures 4 <= |data| && I32(data, 0) !in {0, 1} ==> r == Err(UnexpectedValue("VideoData video_type"))
    ensures r.Ok? && r.value.videoAttributes.Web? ==>
      6 < |data| && r.value.videoType == 1 &&
      DecodeUtf16Le(data[4..|data| - 2]) == Ok(r.value.videoAttributes.webTag) &&
      r.value.videoAttributes.thumbnailBinDataId == U16(data, |data| - 2)
    ensures r.Ok? ==> r.value.videoType == I32(data, 0) && (r.value.videoAttributes.Local? <==> r.value.videoType == 0)
  {
    if |data| < 4 then Err(InsufficientData("VideoData", 4, |data|))
    else
      var videoType := I32(data, 0);
      if videoType == 0 then
        if |data| < 8 then Err(InsufficientData("VideoData local video attributes", 4, |data| - 4))
        else Ok(VideoData(0, Local(U16(data, 4), U16(data, 6))))
      else if videoType == 1 then
        if |data| < 6 then Err(InsufficientData("VideoData web video attributes", 2, |data| - 4))
        else if |data| - 6 == 0 then Err(UnexpectedValue("VideoData web tag length"))
        else
          match DecodeUtf16Le(data[4..|data| - 2])
          case Err(e) => Err(e)
          case Ok(tag) => Ok(VideoData(1, Web(tag, U16(data, |data| - 2))))
      else Err(UnexpectedValue("VideoData video_type"))
  }

  // `len.saturating_sub(offset + 2)`.
  function SaturatingSub(a: nat, b: nat): (r: nat)
    ensures a >= b ==> r == a - b
    ensures a < b ==> r == 0
  {
    if a >= b then a - b else 0
  }

  // VideoData::parse with its running offset per branch.
  method ParseVideoData(data: seq<byte>) returns (r: Result<VideoData>)
    ensures r == VideoDataOf(data)
  {
    if |data| < 4 {
      return Err(InsufficientData("VideoData", 4, |data|));
    }
    var offset := 0;
    var videoType := I32(data, offset);
    offset := offset + 4;
    var attributes: VideoAttributes;
    if videoType == 0 {
      if |data| < offset + 4 {
        return Err(InsufficientData("VideoData local video attributes", 4, |data| - offset));
      }
      var videoBinDataId := U16(data, offset);
      offset := offset + 2;
      var thumbnailBinDataId := U16(data, offset);
      offset := offset + 2;
      attributes := Local(videoBinDataId, thumbnailBinDataId);
    } else if videoType == 1 {
      if |data| < offset + 2 {
        return Err(InsufficientData("VideoData web video attributes", 2, |data| - offset));
      }
      var webTagLength := SaturatingSub(|data|, offset + 2);
      if webTagLength == 0 {
        return Err(UnexpectedValue("VideoData web tag length"));
      }
      var decoded := DecodeUtf16Le(data[offset..offset + webTagLength]);
      if decoded.Err? {
        return Err(decoded.error);
      }
      offset := offset + webTagLength;
      var thumbnailBinDataId := U16(data, offset);
      offset := offset + 2;
      attributes := Web(decoded.value, thumbnailBinDataId);
    } else {
      return Err(UnexpectedValue("VideoData video_type"));
    }
    r := Ok(VideoData(videoType, attributes));
  }

  // The writer side: the type matches the attributes, and a web tag is not
  // empty.
  predicate WellFormedVideoData(v: VideoData)
  {
    match v.videoAttributes
    case Local(_, _) => v.videoType == 0
    case Web(tag, _) => v.videoType == 1 && tag != ""
  }

  function EncodeVideoData(v: VideoData): seq<byte>
  {
    Le32(FromI32(v.videoType)) +
    match v.videoAttributes
    case Local(video, thumbnail) => Le16(video) + Le16(thumbnail)
    case Web(tag, thumbnail) => EncodeUtf16Le(tag) + Le16(thumbnail)
  }

  // A local video is read back even with trailing bytes after it.
  lemma LocalVideoRoundTrip(v: VideoData, rest: seq<byte>)
    requires WellFormedVideoData(v) && v.videoAttributes.Local?
    ensures VideoDataOf(EncodeVideoData(v) + rest) == Ok(v)
  {
    var a := v.videoAttributes;
    var s := EncodeVideoData(v) + rest;
    assert s == [] + Le32(0) + (Le16(a.videoBinDataId) + Le16(a.thumbnailBinDataId) + rest);
    Le32Read([], 0, Le16(a.videoBinDataId) + Le16(a.thumbnailBinDataId) + rest);
    assert s == Le32(0) + Le16(a.videoBinDataId) + (Le16(a.thumbnailBinDataId) + rest);
    Le16Read(Le32(0), a.videoBinDataId, Le16(a.thumbnailBinDataId) + rest);
    assert s == Le32(0) + Le16(a.videoBinDataId) + Le16(a.thumbnailBinDataId) + rest;
    Le16Read(Le32(0) + Le16(a.videoBinDataId), a.thumbnailBinDataId, rest);
  }

  // A web video is read back when nothing follows it: its tag runs to two
  // bytes before the end.
  lemma WebVideoRoundTrip(v: VideoData)
    requires WellFormedVideoData(v) && v.videoAttributes.Web?
    ensures VideoDataOf(EncodeVideoData(v)) == Ok(v)
  {
    var a := v.videoAttributes;
    var e := EncodeUtf16Le(a.webTag);
    var s := EncodeVideoData(v);
    assert |EncodeUnits(a.webTag)| >= 1;
    assert s == [] + Le32(1) + (e + Le16(a.thumbnailBinDataId));
    Le32Read([], 1, e + Le16(a.thumbnailBinDataId));
    assert s == Le32(1) + e + Le16(a.thumbnailBinDataId) + [];
    Le16Read(Le32(1) + e, a.thumbnailBinDataId, []);
    assert s[4..|s| - 2] == e;
    DecodeEncodeUtf16Le(a.webTag);
  }
}
