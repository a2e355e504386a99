/**
  The gallery screen (components/GalleryView.tsx): a grid of the photos App
  owns, a detail view of one selected photo, a caption request for it and a
  delete button. The photo list is a read-only property; the only way this
  screen changes it is the `onDelete` callback, which is App's deletion.
 */
module Gallery {
  import opened Types
  import App
  import Gemini

  class GalleryView {
    /** The owner of the `photos` property and of the `onDelete` callback. */
    const app: App.AppState
    var selectedPhoto: Option<Photo>
    var isAnalyzing: bool
    var analysis: Option<AiAnalysisResult>

    constructor (app: App.AppState)
      ensures this.app == app
      ensures selectedPhoto == None && !isAnalyzing && analysis == None
    {
      this.app := app;
      selectedPhoto := None;
      isAnalyzing := false;
      analysis := None;
    }

    /** `handlePhotoClick`: open the photo and forget the caption shown before. */
    method PhotoClick(photo: Photo)
      modifies this
      ensures selectedPhoto == Some(photo) && analysis == None
      ensures isAnalyzing == old(isAnalyzing)
      ensures unchanged(app)
    {
      selectedPhoto := Some(photo);
      analysis := None;
    }

    /**
      The first half of `handleAnalyze`, up to the awaited request. Without a
      selected photo nothing happens and no request is made; otherwise the
      screen becomes busy and the selected photo's url is requested.
     */
    method BeginAnalyze() returns (request: Option<string>)
      modifies this
      ensures old(selectedPhoto).None? ==> request == None && isAnalyzing == old(isAnalyzing)
      ensures old(selectedPhoto).Some? ==> request == Some(old(selectedPhoto).value.url) && isAnalyzing
      ensures selectedPhoto == old(selectedPhoto) && analysis == old(analysis)
      ensures unchanged(app)
    {
      if selectedPhoto.None? {
        return None;
      }
      isAnalyzing := true;
      request := Some(selectedPhoto.value.url);
    }

    /** The second half of `handleAnalyze`: the awaited caption arrived. */
    method FinishAnalyze(result: AiAnalysisResult)
      modifies this
      ensures analysis == Some(result) && !isAnalyzing
      ensures selectedPhoto == old(selectedPhoto)
      ensures unchanged(app)
    {
      analysis := Some(result);
      isAnalyzing := false;
    }

    /**
      A press on the caption button, which is disabled while a caption is
      being computed: a disabled button does nothing, an enabled one runs the
      first half of `handleAnalyze`.
     */
    method ClickAnalyze() returns (request: Option<string>)
      modifies this
      ensures old(isAnalyzing) ==> request == None && isAnalyzing
      ensures !old(isAnalyzing) && old(selectedPhoto).Some? ==>
        request == Some(old(selectedPhoto).value.url) && isAnalyzing
      ensures !old(isAnalyzing) && old(selectedPhoto).None? ==> request == None && !isAnalyzing
      ensures selectedPhoto == old(selectedPhoto) && analysis == old(analysis)
      ensures unchanged(app)
    {
      if isAnalyzing {
        return None;
      }
      request := BeginAnalyze();
    }

    /** Two presses before the caption arrives issue a single request. */
    method DoubleClickAnalyze() returns (first: Option<string>, second: Option<string>)
      modifies this
      ensures second == None
      ensures isAnalyzing == (old(isAnalyzing) || old(selectedPhoto).Some?)
      ensures selectedPhoto == old(selectedPhoto) && analysis == old(analysis)
      ensures !old(isAnalyzing) ==> first == (if old(selectedPhoto).Some? then Some(old(selectedPhoto).value.url) else None)
      ensures unchanged(app)
    {
      first := ClickAnalyze();
      second := ClickAnalyze();
    }

    /**
      `handleAnalyze` run to completion, with the captioning service as the
      awaited call: with a selected photo the caption shown afterwards is the
      service's answer for its url (the fallback or a parsed reply), and the
      screen is never left busy, because the service cannot fail.
     */
    method Analyze(
      read: string -> Gemini.Attempt<string>,
      generate: Gemini.Request -> Gemini.Attempt<Option<string>>,
      parse: string -> Gemini.Attempt<AiAnalysisResult>)
      modifies this
      ensures old(selectedPhoto).None? ==>
        selectedPhoto == old(selectedPhoto) && isAnalyzing == old(isAnalyzing) && analysis == old(analysis)
      ensures old(selectedPhoto).Some? ==>
        && !isAnalyzing
        && analysis == Some(Gemini.AnalyzePhoto(old(selectedPhoto).value.url, read, generate, parse))
        && (analysis.value == Gemini.FallbackResult()
            || exists t :: t != "" && parse(t) == Gemini.Done(analysis.value))
      ensures selectedPhoto == old(selectedPhoto)
      ensures unchanged(app)
    {
      var request := BeginAnalyze();
      if request.Some? {
        var result := Gemini.AnalyzePhoto(request.value, read, generate, parse);
        FinishAnalyze(result);
      }
    }

    /** The close button: only the selection goes; the caption stays until the next photo is opened. */
    method Close()
      modifies this
      ensures selectedPhoto == None
      ensures analysis == old(analysis) && isAnalyzing == old(isAnalyzing)
      ensures unchanged(app)
    {
      selectedPhoto := None;
    }

    /**
      The delete button, shown only in the detail view of a selected photo:
      App drops that photo's id, then the detail view closes.
     */
    method Delete()
      requires selectedPhoto.Some?
      modifies this, app
      ensures app.photos == App.WithoutId(old(app.photos), old(selectedPhoto).value.id)
      ensures app.status == old(app.status)
      ensures old(app.Valid()) ==> app.Valid()
      ensures selectedPhoto == None
      ensures analysis == old(analysis) && isAnalyzing == old(isAnalyzing)
    {
      app.DeletePhoto(selectedPhoto.value.id);
      selectedPhoto := None;
    }
  }
}
