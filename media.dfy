/** The video record both clip sources hand to the video processor (a Python dict there). A key the
    source leaves out, or sets to None, is `None` here. */
module Media {
  import opened Wrappers

  datatype VideoInfo = VideoInfo(
    url: string,
    path: Option<string>,
    filename: Option<string>,
    width: Option<int>,
    height: Option<int>,
    duration: Option<int>,
    preview: Option<string>,
    source: string)
}
