/** The result of Python's `json.loads`, which is not itself modelled. */
module Json {

  /** A decoded JSON value. An object maps each key to its value; when a key
      is repeated in the text, the decoder has already kept the last one. */
  datatype JValue =
    | JNull
    | JBool(b: bool)
    | JNum(n: real)
    | JStr(s: string)
    | JArr(items: seq<JValue>)
    | JObj(fields: map<string, JValue>)
}
