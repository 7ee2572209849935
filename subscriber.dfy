/**
 * `ZMQSubscriber._decode_frames` of backend/subscriber.py: choosing the topic
 * and the data frame of a multipart message and decoding the data as UTF-8
 * JSON. The JSON parser is a parameter: `None` stands for the
 * JSONDecodeError the code catches. The sockets and the receive loop are
 * left out.
 */
module Subscriber {
  import opened Wrappers
  import opened PyValue
  import opened Utf8

  /** The topic and the decoded payload of one message; no payload when the JSON did not parse. */
  datatype Decoded = Decoded(topic: string, payload: Option<Value>)

  /** The data frame: the only frame, or the last of several. */
  function DataFrame(frames: seq<seq<byte>>): seq<byte>
    requires frames != []
  {
    frames[|frames| - 1]
  }

  /** The topic: empty for a single frame, otherwise the first frame decoded with bad bytes dropped. */
  function Topic(frames: seq<seq<byte>>): string
    requires frames != []
  {
    if |frames| == 1 then "" else Decode(frames[0], Ignore).value
  }

  /**
   * `_decode_frames(frames)`. A data frame that is not UTF-8 raises
   * UnicodeDecodeError, which the JSON error handler does not catch.
   */
  function DecodeFrames(frames: seq<seq<byte>>, parseJson: string -> Option<Value>): (r: Result<Decoded, Exception>)
    ensures r.Err? ==> r.error == UnicodeDecodeError
  {
    if frames == [] then Ok(Decoded("", None))
    else
      match Decode(DataFrame(frames), Strict)
      case None => Err(UnicodeDecodeError)
      case Some(text) => Ok(Decoded(Topic(frames), parseJson(text)))
  }

  /** No frames: no topic and no payload. */
  lemma DecodeNoFrames(parseJson: string -> Option<Value>)
    ensures DecodeFrames([], parseJson) == Ok(Decoded("", None))
  {
  }

  /** Decoding fails exactly when there is a data frame and it is not UTF-8. */
  lemma DecodeFails(frames: seq<seq<byte>>, parseJson: string -> Option<Value>)
    ensures DecodeFrames(frames, parseJson).Err? <==> frames != [] && Decode(DataFrame(frames), Strict).None?
  {
  }

  /** One frame is the data and the topic is empty. */
  lemma DecodeOneFrame(data: seq<byte>, parseJson: string -> Option<Value>)
    ensures match Decode(data, Strict)
      case None => DecodeFrames([data], parseJson) == Err(UnicodeDecodeError)
      case Some(text) => DecodeFrames([data], parseJson) == Ok(Decoded("", parseJson(text)))
  {
  }

  /** With several frames only the first, the topic, and the last, the data, count. */
  lemma DecodeManyFrames(frames: seq<seq<byte>>, parseJson: string -> Option<Value>)
    requires |frames| >= 2
    ensures DecodeFrames(frames, parseJson) == DecodeFrames([frames[0], frames[|frames| - 1]], parseJson)
    ensures DecodeFrames(frames, parseJson).Ok? ==> DecodeFrames(frames, parseJson).value.topic == Decode(frames[0], Ignore).value
  {
    var pair := [frames[0], frames[|frames| - 1]];
    assert DataFrame(pair) == DataFrame(frames) && Topic(pair) == Topic(frames);
  }

  /** JSON that does not parse keeps the topic and gives no payload. */
  lemma DecodeBadJson(frames: seq<seq<byte>>, parseJson: string -> Option<Value>)
    requires frames != [] && Decode(DataFrame(frames), Strict).Some?
    requires parseJson(Decode(DataFrame(frames), Strict).value).None?
    ensures DecodeFrames(frames, parseJson) == Ok(Decoded(Topic(frames), None))
  {
  }

  /** A topic and a JSON text sent as two UTF-8 frames are received as sent. */
  lemma DecodeRoundTrip(topic: string, text: string, parseJson: string -> Option<Value>)
    ensures DecodeFrames([Encode(topic), Encode(text)], parseJson) == Ok(Decoded(topic, parseJson(text)))
  {
    DecodeEncode(topic, Ignore);
    DecodeEncode(text, Strict);
  }

  /** A JSON text sent alone is received with the empty topic. */
  lemma DecodeSingleRoundTrip(text: string, parseJson: string -> Option<Value>)
    ensures DecodeFrames([Encode(text)], parseJson) == Ok(Decoded("", parseJson(text)))
  {
    DecodeEncode(text, Strict);
  }
}
