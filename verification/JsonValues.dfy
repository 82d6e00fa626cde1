/** JSON values as the Docker scanner keeps them (src/scanners/docker.rs): of a number only that it is one. */
module JsonValues {
  datatype JsonValue =
    | Null
    | Bool(flag: bool)
    | Num
    | Str(text: string)
    | Array(items: seq<JsonValue>)
    | Object(entries: seq<(string, JsonValue)>)
}
